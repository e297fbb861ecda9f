// The versioned migration runner (backend/app/db/migrations.py, init_db), with crashes and restarts.
//
// The registry is a list of versions in the order the loop visits them; the order need not be
// sorted.  Some migration bodies commit while they run, which also commits the records of
// every migration recorded before them.
module MigrationRunner {
  import opened Prelude

  // Version of the last migration that a database from before version tracking already has.
  const LAST_LEGACY := 29

  datatype Migration = Migration(version: int, commits: bool)

  type Registry = seq<Migration>

  ghost predicate WellFormed(reg: Registry) {
    && (forall i :: 0 <= i < |reg| ==> reg[i].version > 0)
    && (forall i, j :: 0 <= i < j < |reg| ==> reg[i].version != reg[j].version)
  }

  function Versions(reg: Registry): set<int> { set i | 0 <= i < |reg| :: reg[i].version }

  datatype Kind = Empty | IntegerBots | TextBots | Triggers

  // recorded: the rows of schema_version, None when the table does not exist;
  // applied: the migrations whose effects the schema has.
  datatype Db = Db(kind: Kind, recorded: Option<set<int>>, applied: set<int>)

  function Recorded(db: Db): set<int> { if db.recorded.Some? then db.recorded.value else {} }

  function Record(db: Db, v: int): Db { db.(recorded := Some(Recorded(db) + {v})) }

  // blank: the branch for an empty database; current: highest version recorded at start;
  // base: everything recorded at start.
  datatype Pc =
    | Down
    | AtEntry(blank: bool, current: int, base: set<int>, i: nat)
    | InBody(blank: bool, current: int, base: set<int>, i: nat)    // body running, effect incomplete
    | BodyDone(blank: bool, current: int, base: set<int>, i: nat)  // effect complete, not recorded
    | Succeeded(blank: bool, current: int, base: set<int>)
    | Upgraded    // init_db returned after the integer-id conversion, registry not visited

  datatype Sys = Sys(committed: Db, working: Db, pc: Pc)

  datatype Event =
    | Start(current: int)
    | Visit
    | BodyCommit
    | SchemaChangeDurable   // DDL outside a transaction is durable at once
    | Finish
    | Write
    | Commit
    | Crash                 // process dies or a body raises: the connection closes without commit

  // Value of SELECT MAX(version), or 0 for an empty table.
  ghost predicate IsCurrent(c: int, recorded: set<int>) {
    if recorded == {} then c == 0 else c in recorded && forall v :: v in recorded ==> v <= c
  }

  // Creates schema_version when it is missing and marks the legacy migrations of a database
  // that already has table triggers.
  function Bootstrap(reg: Registry, db: Db): Db {
    if db.recorded.Some? then db
    else db.(recorded := Some(if db.kind.Triggers? then set v | v in Versions(reg) && v <= LAST_LEGACY else {}))
  }

  // CREATE TABLE schema_version is durable at once, its rows are not.
  function TableCreated(db: Db): Db { db.(recorded := Some(Recorded(db))) }

  function FreshSchema(reg: Registry, db: Db): Db {
    Db(Triggers, Some({}), db.applied + set v | v in Versions(reg) && v <= LAST_LEGACY)
  }

  predicate Runs(blank: bool, current: int, version: int) {
    if blank then version > LAST_LEGACY else version > current
  }

  ghost predicate Enabled(reg: Registry, s: Sys, e: Event) {
    match e
    case Start(c) =>
      s.pc.Down? && (s.committed.kind.Empty? || s.committed.kind.IntegerBots?
                     || IsCurrent(c, Recorded(Bootstrap(reg, s.committed))))
    case Visit => s.pc.AtEntry? && s.pc.i < |reg|
    case BodyCommit => (s.pc.InBody? || s.pc.BodyDone?) && s.pc.i < |reg| && reg[s.pc.i].commits
    case SchemaChangeDurable => (s.pc.InBody? || s.pc.BodyDone?) && s.working.recorded == s.committed.recorded
    case Finish => s.pc.InBody? && s.pc.i < |reg|
    case Write => s.pc.BodyDone? && s.pc.i < |reg|
    case Commit => s.pc.AtEntry? && s.pc.i == |reg|
    case Crash => true
  }

  ghost function Apply(reg: Registry, s: Sys, e: Event): Sys
    requires Enabled(reg, s, e)
  {
    match e
    case Start(c) =>
      if s.committed.kind.Empty? then
        var db := FreshSchema(reg, s.committed);
        Sys(db, db, AtEntry(true, 0, {}, 0))
      else if s.committed.kind.IntegerBots? then
        var db := s.committed.(kind := TextBots);
        Sys(db, db, Upgraded)
      else
        var db := Bootstrap(reg, s.committed);
        Sys(TableCreated(s.committed), db, AtEntry(false, c, Recorded(db), 0))
    case Visit =>
      var AtEntry(blank, current, base, i) := s.pc;
      var v := reg[i].version;
      if Runs(blank, current, v) then s.(pc := InBody(blank, current, base, i))
      else if blank then s.(working := Record(s.working, v), pc := AtEntry(blank, current, base, i + 1))
      else s.(pc := AtEntry(blank, current, base, i + 1))
    case BodyCommit => s.(committed := s.working)
    case SchemaChangeDurable => s.(committed := s.committed.(applied := s.committed.applied + s.working.applied))
    case Finish =>
      var InBody(blank, current, base, i) := s.pc;
      s.(working := s.working.(applied := s.working.applied + {reg[i].version}),
         pc := BodyDone(blank, current, base, i))
    case Write =>
      var BodyDone(blank, current, base, i) := s.pc;
      s.(working := Record(s.working, reg[i].version), pc := AtEntry(blank, current, base, i + 1))
    case Commit => Sys(s.working, s.working, Succeeded(s.pc.blank, s.pc.current, s.pc.base))
    case Crash => Sys(s.committed, s.committed, Down)
  }

  ghost predicate IsStep(reg: Registry, a: Sys, b: Sys) {
    exists e :: Enabled(reg, a, e) && b == Apply(reg, a, e)
  }

  ghost predicate Steps(reg: Registry, run: seq<Sys>) {
    && |run| > 0
    && (forall i :: 0 < i < |run| ==> IsStep(reg, run[i - 1], run[i]))
  }

  // Every recorded version has all lower registry versions recorded too.
  ghost predicate Gapless(reg: Registry, recorded: set<int>) {
    forall v, w :: v in Versions(reg) && w in recorded && v <= w ==> v in recorded
  }

  // Records never run ahead of effects.
  ghost predicate Honest(reg: Registry, db: Db) {
    && Versions(reg) * Recorded(db) <= db.applied
    && (db.recorded.None? && db.kind.Triggers? ==>
          forall v :: v in Versions(reg) && v <= LAST_LEGACY ==> v in db.applied)
  }

  ghost predicate Sound(reg: Registry, db: Db) {
    Honest(reg, db) && Gapless(reg, Recorded(db)) && (db.kind.Empty? ==> db.recorded.None?)
  }

  ghost predicate IsRun(reg: Registry, run: seq<Sys>) {
    && Steps(reg, run)
    && run[0].pc.Down?
    && run[0].working == run[0].committed
    && Sound(reg, run[0].committed)
  }

  ghost predicate Complete(reg: Registry, db: Db) {
    Versions(reg) <= Recorded(db) && Versions(reg) <= db.applied
  }

  // ------------------------------------------------------------ what one process does

  // Versions recorded once the loop has passed the first n entries.
  function Passed(reg: Registry, blank: bool, current: int, n: nat): set<int>
    requires n <= |reg|
  {
    set j | 0 <= j < n && (blank || reg[j].version > current) :: reg[j].version
  }

  lemma PassedGrows(reg: Registry, blank: bool, current: int, n: nat)
    requires n < |reg|
    ensures Passed(reg, blank, current, n + 1)
         == Passed(reg, blank, current, n) + (if blank || reg[n].version > current then {reg[n].version} else {})
  {
    var v := reg[n].version;
    assert forall x :: x in Passed(reg, blank, current, n) ==> x in Passed(reg, blank, current, n + 1);
    if blank || v > current {
      assert v in Passed(reg, blank, current, n + 1);
    }
  }

  ghost predicate Running(pc: Pc) { pc.AtEntry? || pc.InBody? || pc.BodyDone? }

  // What the current process has recorded, committed or not.
  ghost predicate Tracks(reg: Registry, s: Sys) {
    && (Running(s.pc) ==>
          && s.pc.i <= |reg|
          && (s.pc.blank ==> s.pc.base == {} && s.pc.current == 0)
          && (s.pc.InBody? || s.pc.BodyDone? ==> s.pc.i < |reg| && Runs(s.pc.blank, s.pc.current, reg[s.pc.i].version))
          && s.working.recorded == Some(s.pc.base + Passed(reg, s.pc.blank, s.pc.current, s.pc.i)))
    && (s.pc.Succeeded? ==>
          && s.committed == s.working
          && s.working.recorded == Some(s.pc.base + Passed(reg, s.pc.blank, s.pc.current, |reg|)))
  }

  lemma StepTracks(reg: Registry, s: Sys, e: Event)
    requires Enabled(reg, s, e) && Tracks(reg, s)
    ensures Tracks(reg, Apply(reg, s, e))
  {
    if (e.Visit? || e.Write?) && s.pc.i < |reg| {
      PassedGrows(reg, s.pc.blank, s.pc.current, s.pc.i);
    }
    var s' := Apply(reg, s, e);
    if e.Start? && s'.pc.AtEntry? {
      assert Passed(reg, s'.pc.blank, s'.pc.current, 0) == {};
      assert s'.working.recorded.value == s'.pc.base + Passed(reg, s'.pc.blank, s'.pc.current, 0);
    }
    if (e.Visit? || e.Write?) && s'.pc.AtEntry? {
      assert s'.working.recorded.value == s'.pc.base + Passed(reg, s'.pc.blank, s'.pc.current, s'.pc.i);
    }
  }

  // ------------------------------------------------------------ which registries are crash safe

  // No body that commits separates a higher version (already recorded) from a lower one (still to come).
  ghost predicate CommitSafe(reg: Registry) {
    forall a, k, b :: 0 <= a < k <= b < |reg| && reg[k].commits ==> reg[a].version < reg[b].version
  }

  ghost predicate Sorted(reg: Registry) {
    forall i, j :: 0 <= i < j < |reg| ==> reg[i].version < reg[j].version
  }

  lemma SortedIsCommitSafe(reg: Registry)
    requires Sorted(reg)
    ensures CommitSafe(reg)
  {
  }

  ghost predicate Invariant(reg: Registry, s: Sys) {
    && Tracks(reg, s)
    && Sound(reg, s.committed)
    && Honest(reg, s.working)
    && (s.pc.Down? ==> s.working == s.committed)
    && (Running(s.pc) ==>
          && Gapless(reg, s.pc.base)
          && (!s.pc.blank ==> IsCurrent(s.pc.current, s.pc.base))
          && (s.pc.blank ==> forall v :: v in Versions(reg) && v <= LAST_LEGACY ==> v in s.working.applied)
          && (s.pc.BodyDone? ==> reg[s.pc.i].version in s.working.applied)
          && !s.working.kind.Empty?
          && s.committed.recorded.Some?)
    && (s.pc.Succeeded? ==> Complete(reg, s.committed))
  }

  // The records present when entry k's body commits have no gap.
  lemma PrefixIsGapless(reg: Registry, blank: bool, current: int, base: set<int>, k: nat)
    requires WellFormed(reg) && CommitSafe(reg) && Gapless(reg, base) && k <= |reg|
    requires k < |reg| ==> reg[k].commits
    requires if blank then base == {} && current == 0 else IsCurrent(current, base)
    ensures Gapless(reg, base + Passed(reg, blank, current, k))
  {
    var recorded := base + Passed(reg, blank, current, k);
    forall v, w | v in Versions(reg) && w in recorded && v <= w ensures v in recorded {
      if v > current && w !in base {
        var b :| 0 <= b < |reg| && reg[b].version == v;
        var a :| 0 <= a < k && reg[a].version == w;
        assert b < k;
        assert v in Passed(reg, blank, current, k);
      }
    }
  }

  // One uninterrupted pass over the registry from records `base` completes it exactly when no
  // version at or below the highest record is missing.
  lemma UninterruptedIsComplete(reg: Registry, blank: bool, current: int, base: set<int>)
    requires WellFormed(reg)
    requires if blank then base == {} && current == 0 else IsCurrent(current, base)
    ensures Versions(reg) <= base + Passed(reg, blank, current, |reg|)
       <==> forall v :: v in Versions(reg) && v <= current ==> v in base
    ensures Gapless(reg, base) ==> Versions(reg) <= base + Passed(reg, blank, current, |reg|)
  {
    forall v | v in Versions(reg) && v > current ensures v in Passed(reg, blank, current, |reg|) {
      var j :| 0 <= j < |reg| && reg[j].version == v;
    }
  }

  lemma StartKeepsInvariant(reg: Registry, s: Sys, c: int)
    requires Enabled(reg, s, Start(c)) && Invariant(reg, s)
    ensures Invariant(reg, Apply(reg, s, Start(c)))
  {
    StepTracks(reg, s, Start(c));
  }

  lemma CommitKeepsInvariant(reg: Registry, s: Sys)
    requires WellFormed(reg) && CommitSafe(reg)
    requires Enabled(reg, s, Commit) && Invariant(reg, s)
    ensures Invariant(reg, Apply(reg, s, Commit))
  {
    StepTracks(reg, s, Commit);
    PrefixIsGapless(reg, s.pc.blank, s.pc.current, s.pc.base, |reg|);
    UninterruptedIsComplete(reg, s.pc.blank, s.pc.current, s.pc.base);
    assert Gapless(reg, Recorded(s.working));
  }

  lemma BodyCommitKeepsInvariant(reg: Registry, s: Sys)
    requires WellFormed(reg) && CommitSafe(reg)
    requires Enabled(reg, s, BodyCommit) && Invariant(reg, s)
    ensures Invariant(reg, Apply(reg, s, BodyCommit))
  {
    StepTracks(reg, s, BodyCommit);
    PrefixIsGapless(reg, s.pc.blank, s.pc.current, s.pc.base, s.pc.i);
  }

  lemma VisitKeepsInvariant(reg: Registry, s: Sys)
    requires Enabled(reg, s, Visit) && Invariant(reg, s)
    ensures Invariant(reg, Apply(reg, s, Visit))
  {
    StepTracks(reg, s, Visit);
  }

  lemma WriteKeepsInvariant(reg: Registry, s: Sys)
    requires Enabled(reg, s, Write) && Invariant(reg, s)
    ensures Invariant(reg, Apply(reg, s, Write))
  {
    StepTracks(reg, s, Write);
  }

  lemma StepKeepsInvariant(reg: Registry, s: Sys, e: Event)
    requires WellFormed(reg) && CommitSafe(reg)
    requires Enabled(reg, s, e) && Invariant(reg, s)
    ensures Invariant(reg, Apply(reg, s, e))
  {
    match e
    case Start(c) => StartKeepsInvariant(reg, s, c);
    case BodyCommit => BodyCommitKeepsInvariant(reg, s);
    case Commit => CommitKeepsInvariant(reg, s);
    case Visit => VisitKeepsInvariant(reg, s);
    case Write => WriteKeepsInvariant(reg, s);
    case _ => StepTracks(reg, s, e);
  }

  lemma {:induction false} RunsKeepInvariant(reg: Registry, run: seq<Sys>, i: nat)
    requires WellFormed(reg) && CommitSafe(reg) && IsRun(reg, run) && i < |run|
    ensures Invariant(reg, run[i])
  {
    if i > 0 {
      RunsKeepInvariant(reg, run, i - 1);
      assert IsStep(reg, run[i - 1], run[i]);
      var e :| Enabled(reg, run[i - 1], e) && run[i] == Apply(reg, run[i - 1], e);
      StepKeepsInvariant(reg, run[i - 1], e);
    }
  }

  // Through any crashes, failures and restarts outside the creation of a fresh schema, a run of
  // init_db that gets through the registry leaves nothing unapplied.
  ghost predicate AlwaysComplete(reg: Registry) {
    forall run: seq<Sys>, i :: IsRun(reg, run) && 0 <= i < |run| && run[i].pc.Succeeded? ==>
      Complete(reg, run[i].committed)
  }

  lemma CommitSafeIsComplete(reg: Registry)
    requires WellFormed(reg) && CommitSafe(reg)
    ensures AlwaysComplete(reg)
  {
    forall run: seq<Sys>, i | IsRun(reg, run) && 0 <= i < |run| && run[i].pc.Succeeded?
      ensures Complete(reg, run[i].committed)
    {
      RunsKeepInvariant(reg, run, i);
    }
  }

  // ------------------------------------------------------------ the converse: a run that loses a migration

  function Last(run: seq<Sys>): Sys
    requires |run| > 0
  {
    run[|run| - 1]
  }

  lemma CurrentExists(recorded: set<int>) returns (c: int)
    ensures IsCurrent(c, recorded)
  {
    if recorded == {} {
      c := 0;
    } else {
      c := Greatest(recorded);
    }
  }

  lemma Extend(reg: Registry, run: seq<Sys>, e: Event) returns (run': seq<Sys>)
    requires Steps(reg, run) && Enabled(reg, Last(run), e)
    ensures Steps(reg, run') && run'[0] == run[0] && Last(run') == Apply(reg, Last(run), e)
  {
    run' := run + [Apply(reg, Last(run), e)];
    assert IsStep(reg, Last(run), Last(run'));
    forall i | 0 < i < |run'| ensures IsStep(reg, run'[i - 1], run'[i]) {
      if i < |run| {
        assert IsStep(reg, run[i - 1], run[i]);
      }
    }
  }

  // A database with these records and effects, in the loop at entry n.
  function LoopState(reg: Registry, committed: Db, start: Db, current: int, n: nat): Sys
    requires n <= |reg| && start.recorded.Some?
  {
    var passed := Passed(reg, false, current, n);
    var base := start.recorded.value;
    Sys(committed, Db(start.kind, Some(base + passed), start.applied + passed), AtEntry(false, current, base, n))
  }

  // The loop visiting the first n entries with no crash and no commit.
  lemma {:induction false} QuietLoop(reg: Registry, run: seq<Sys>, committed: Db, start: Db, current: int, n: nat)
    returns (run': seq<Sys>)
    requires Steps(reg, run) && n <= |reg| && start.recorded.Some?
    requires Last(run) == LoopState(reg, committed, start, current, 0)
    ensures Steps(reg, run') && run'[0] == run[0]
    ensures Last(run') == LoopState(reg, committed, start, current, n)
  {
    if n == 0 {
      return run;
    }
    run' := QuietLoop(reg, run, committed, start, current, n - 1);
    PassedGrows(reg, false, current, n - 1);
    run' := Extend(reg, run', Visit);
    if Runs(false, current, reg[n - 1].version) {
      run' := Extend(reg, run', Finish);
      run' := Extend(reg, run', Write);
    }
    var passed := Passed(reg, false, current, n);
    assert Last(run').working.recorded.value == start.recorded.value + passed;
    assert Last(run').working.applied == start.applied + passed;
  }

  // Bodies 0 .. k-1 run, body k commits, the process dies.
  lemma CrashInBody(reg: Registry, k: nat) returns (run: seq<Sys>)
    requires WellFormed(reg) && k < |reg| && reg[k].commits
    ensures IsRun(reg, run)
    ensures var done := Passed(reg, false, 0, k);
            Last(run) == Sys(Db(TextBots, Some(done), done), Db(TextBots, Some(done), done), Down)
  {
    var db := Db(TextBots, Some({}), {});
    run := [Sys(db, db, Down)];
    assert Passed(reg, false, 0, 0) == {};
    assert {} + Passed(reg, false, 0, 0) == {};
    run := Extend(reg, run, Start(0));
    run := QuietLoop(reg, run, db, db, 0, k);
    assert {} + Passed(reg, false, 0, k) == Passed(reg, false, 0, k);
    run := Extend(reg, run, Visit);
    run := Extend(reg, run, BodyCommit);
    run := Extend(reg, run, Crash);
  }

  // An undisturbed start of a database that is not empty.
  lemma QuietStart(reg: Registry, run: seq<Sys>, db: Db, current: int) returns (run': seq<Sys>)
    requires Steps(reg, run) && Last(run) == Sys(db, db, Down)
    requires (db.kind.TextBots? || db.kind.Triggers?) && IsCurrent(current, Recorded(Bootstrap(reg, db)))
    ensures Steps(reg, run') && run'[0] == run[0] && Last(run').pc.Succeeded?
    ensures var passed := Passed(reg, false, current, |reg|);
            Last(run').committed == Db(db.kind, Some(Recorded(Bootstrap(reg, db)) + passed), db.applied + passed)
  {
    var start := Bootstrap(reg, db);
    assert Passed(reg, false, current, 0) == {};
    assert start.recorded.value + {} == start.recorded.value && start.applied + {} == start.applied;
    run' := Extend(reg, run, Start(current));
    run' := QuietLoop(reg, run', TableCreated(db), start, current, |reg|);
    run' := Extend(reg, run', Commit);
  }

  lemma LosesMigration(reg: Registry, a: nat, k: nat, b: nat) returns (run: seq<Sys>)
    requires WellFormed(reg) && a < k <= b < |reg|
    requires reg[k].commits && reg[a].version > reg[b].version
    ensures IsRun(reg, run) && Last(run).pc.Succeeded?
    ensures reg[b].version !in Recorded(Last(run).committed) && reg[b].version !in Last(run).committed.applied
  {
    run := CrashInBody(reg, k);
    var base := Passed(reg, false, 0, k);
    var current := CurrentExists(base);
    assert reg[a].version in base;
    run := QuietStart(reg, run, Db(TextBots, Some(base), base), current);
  }

  // Some run of an unsafe registry succeeds with a migration missing.
  lemma UnsafeRun(reg: Registry) returns (run: seq<Sys>)
    requires WellFormed(reg) && !CommitSafe(reg)
    ensures IsRun(reg, run) && run[|run| - 1].pc.Succeeded? && !Complete(reg, run[|run| - 1].committed)
  {
    var a, k, b :| 0 <= a < k <= b < |reg| && reg[k].commits && reg[a].version >= reg[b].version;
    run := LosesMigration(reg, a, k, b);
    assert reg[b].version in Versions(reg);
  }

  // The exact condition: a registry survives every run if and only if it is commit safe, as long as
  // the process does not die while it creates a fresh schema.
  lemma CompleteIffCommitSafe(reg: Registry)
    requires WellFormed(reg)
    ensures AlwaysComplete(reg) <==> CommitSafe(reg)
  {
    if CommitSafe(reg) {
      CommitSafeIsComplete(reg);
    } else {
      var run := UnsafeRun(reg);
    }
  }

  // ------------------------------------------------------------ dying inside the creation of a fresh schema

  // Registry versions whose effects only the fresh schema brings: the loop of a database with
  // table triggers and no version table does not visit them.
  function Legacy(reg: Registry): set<int> { set v | v in Versions(reg) && v <= LAST_LEGACY }

  // The statements of the fresh schema are durable one by one. After the first, table triggers is
  // there and the version table is not; `made` are the versions whose effects are complete.
  function CutSchema(reg: Registry, db: Db, made: set<int>): Db {
    Db(Triggers, None, db.applied + made * Legacy(reg))
  }

  ghost predicate IsCut(reg: Registry, a: Sys, b: Sys, made: set<int>) {
    && a.pc.Down? && a.committed.kind.Empty?
    && b == Sys(CutSchema(reg, a.committed, made), CutSchema(reg, a.committed, made), Down)
  }

  // cuts: what is complete at each place where the creation of the schema can break off.
  ghost predicate IsStepOrCut(reg: Registry, cuts: set<set<int>>, a: Sys, b: Sys) {
    IsStep(reg, a, b) || exists made :: made in cuts && IsCut(reg, a, b, made)
  }

  ghost predicate CutSteps(reg: Registry, cuts: set<set<int>>, run: seq<Sys>) {
    && |run| > 0
    && (forall i :: 0 < i < |run| ==> IsStepOrCut(reg, cuts, run[i - 1], run[i]))
  }

  // A run in which the process may also die inside the creation of a fresh schema.
  ghost predicate IsCutRun(reg: Registry, cuts: set<set<int>>, run: seq<Sys>) {
    && CutSteps(reg, cuts, run)
    && run[0].pc.Down?
    && run[0].working == run[0].committed
    && Sound(reg, run[0].committed)
  }

  ghost predicate AlwaysCompleteWithCuts(reg: Registry, cuts: set<set<int>>) {
    forall run: seq<Sys>, i :: IsCutRun(reg, cuts, run) && 0 <= i < |run| && run[i].pc.Succeeded? ==>
      Complete(reg, run[i].committed)
  }

  // Wherever the creation breaks off, the legacy versions are complete.
  ghost predicate CutsAreHarmless(reg: Registry, cuts: set<set<int>>) {
    forall made :: made in cuts ==> Legacy(reg) <= made
  }

  lemma StepsAreCutSteps(reg: Registry, cuts: set<set<int>>, run: seq<Sys>)
    requires Steps(reg, run)
    ensures CutSteps(reg, cuts, run)
  {
    hide IsStep;
  }

  lemma CutKeepsInvariant(reg: Registry, a: Sys, b: Sys, made: set<int>)
    requires Invariant(reg, a) && IsCut(reg, a, b, made) && Legacy(reg) <= made
    ensures Invariant(reg, b)
  {
  }

  lemma {:induction false} CutRunsKeepInvariant(reg: Registry, cuts: set<set<int>>, run: seq<Sys>, i: nat)
    requires WellFormed(reg) && CommitSafe(reg) && CutsAreHarmless(reg, cuts)
    requires IsCutRun(reg, cuts, run) && i < |run|
    ensures Invariant(reg, run[i])
  {
    hide WellFormed, CommitSafe, IsCut, Invariant;
    if i == 0 {
      StartsInvariant(reg, run[0]);
    } else {
      CutRunsKeepInvariant(reg, cuts, run, i - 1);
      assert IsStepOrCut(reg, cuts, run[i - 1], run[i]);
      if made :| made in cuts && IsCut(reg, run[i - 1], run[i], made) {
        CutKeepsInvariant(reg, run[i - 1], run[i], made);
      } else {
        var e :| Enabled(reg, run[i - 1], e) && run[i] == Apply(reg, run[i - 1], e);
        StepKeepsInvariant(reg, run[i - 1], e);
      }
    }
  }

  lemma StartsInvariant(reg: Registry, s: Sys)
    requires s.pc.Down? && s.working == s.committed && Sound(reg, s.committed)
    ensures Invariant(reg, s)
  {
  }

  // The step that completes the body of version v.
  ghost predicate FinishesBody(reg: Registry, a: Sys, b: Sys, v: int) {
    a.pc.InBody? && a.pc.i < |reg| && reg[a.pc.i].version == v && b.pc.BodyDone?
  }

  lemma StepAppliesByBody(reg: Registry, a: Sys, e: Event, v: int)
    requires Enabled(reg, a, e) && v >= 30
    requires v in Apply(reg, a, e).working.applied || v in Apply(reg, a, e).committed.applied
    ensures v in a.working.applied || v in a.committed.applied || FinishesBody(reg, a, Apply(reg, a, e), v)
  {
  }

  // A version from 30 on is in place only if it was at the start of the run or its body finished in
  // the run, whatever the registry and however often the process died.
  lemma {:induction false} AppliedByBody(reg: Registry, cuts: set<set<int>>, run: seq<Sys>, k: nat, v: int)
    requires CutSteps(reg, cuts, run) && k < |run| && v >= 30
    requires v in run[k].working.applied || v in run[k].committed.applied
    ensures || v in run[0].working.applied || v in run[0].committed.applied
            || exists j :: 0 <= j < k && FinishesBody(reg, run[j], run[j + 1], v)
    decreases k
  {
    if k > 0 {
      assert IsStepOrCut(reg, cuts, run[k - 1], run[k]);
      hide IsStepOrCut;
      if v in run[k - 1].working.applied || v in run[k - 1].committed.applied {
        AppliedByBody(reg, cuts, run, k - 1, v);
      } else {
        OneStepApplies(reg, cuts, run[k - 1], run[k], v);
        assert FinishesBody(reg, run[k - 1], run[k - 1 + 1], v);
      }
    }
  }

  lemma OneStepApplies(reg: Registry, cuts: set<set<int>>, a: Sys, b: Sys, v: int)
    requires IsStepOrCut(reg, cuts, a, b) && v >= 30
    requires v in b.working.applied || v in b.committed.applied
    ensures v in a.working.applied || v in a.committed.applied || FinishesBody(reg, a, b, v)
  {
    if IsStep(reg, a, b) {
      var e :| Enabled(reg, a, e) && b == Apply(reg, a, e);
      StepAppliesByBody(reg, a, e, v);
    }
  }

  // Versions from 30 on that are recorded are in place, and a finished body is.
  ghost predicate RecordsHonest(reg: Registry, s: Sys) {
    && (forall v :: v in Versions(reg) && v >= 30 && v in Recorded(s.committed) ==> v in s.committed.applied)
    && (forall v :: v in Versions(reg) && v >= 30 && v in Recorded(s.working) ==> v in s.working.applied)
    && (s.pc.BodyDone? && s.pc.i < |reg| ==> reg[s.pc.i].version in s.working.applied)
  }

  lemma StepKeepsRecordsHonest(reg: Registry, s: Sys, e: Event)
    requires Enabled(reg, s, e) && RecordsHonest(reg, s)
    ensures RecordsHonest(reg, Apply(reg, s, e))
  {
  }

  lemma CutKeepsRecordsHonest(reg: Registry, a: Sys, b: Sys, made: set<int>)
    requires IsCut(reg, a, b, made)
    ensures RecordsHonest(reg, b)
  {
  }

  // In every run, of any registry and with deaths anywhere, no version from 30 on is recorded that is
  // not in place: what an unsafe run loses is not recorded either.
  lemma {:induction false} RecordsStayHonest(reg: Registry, cuts: set<set<int>>, run: seq<Sys>, k: nat)
    requires CutSteps(reg, cuts, run) && RecordsHonest(reg, run[0]) && k < |run|
    ensures RecordsHonest(reg, run[k])
  {
    hide RecordsHonest, IsCut;
    if k > 0 {
      RecordsStayHonest(reg, cuts, run, k - 1);
      assert IsStepOrCut(reg, cuts, run[k - 1], run[k]);
      if made :| made in cuts && IsCut(reg, run[k - 1], run[k], made) {
        CutKeepsRecordsHonest(reg, run[k - 1], run[k], made);
      } else {
        var e :| Enabled(reg, run[k - 1], e) && run[k] == Apply(reg, run[k - 1], e);
        StepKeepsRecordsHonest(reg, run[k - 1], e);
      }
    }
  }

  // An empty database, a creation that breaks off before version v is complete, and an undisturbed
  // restart: v is recorded with the other legacy versions, and never applied.
  lemma CutLosesMigration(reg: Registry, cuts: set<set<int>>, made: set<int>, v: int) returns (run: seq<Sys>)
    requires made in cuts && v in Legacy(reg) && v !in made
    ensures IsCutRun(reg, cuts, run) && Last(run).pc.Succeeded?
    ensures v in Recorded(Last(run).committed) && v !in Last(run).committed.applied
  {
    var empty := Db(Empty, None, {});
    var db := CutSchema(reg, empty, made);
    var a, b := Sys(empty, empty, Down), Sys(db, db, Down);
    var current := CurrentExists(Recorded(Bootstrap(reg, db)));
    assert v in Recorded(Bootstrap(reg, db)) && v <= current;
    var rest := QuietStart(reg, [b], db, current);
    run := [a] + rest;
    assert IsCut(reg, a, b, made);
    forall i | 0 < i < |run| ensures IsStepOrCut(reg, cuts, run[i - 1], run[i]) {
      if i > 1 {
        assert IsStep(reg, rest[i - 2], rest[i - 1]);
      }
    }
  }

  // The exact condition for all runs: commit safe, and no place where the creation of a fresh schema
  // can break off leaves a legacy version of the registry incomplete.
  lemma CompleteIffSafeWithCuts(reg: Registry, cuts: set<set<int>>)
    requires WellFormed(reg)
    ensures AlwaysCompleteWithCuts(reg, cuts) <==> CommitSafe(reg) && CutsAreHarmless(reg, cuts)
  {
    hide Invariant, CommitSafe, Complete, WellFormed;
    if !CommitSafe(reg) {
      var run := UnsafeRun(reg);
      StepsAreCutSteps(reg, cuts, run);
      assert IsCutRun(reg, cuts, run);
    } else if !CutsAreHarmless(reg, cuts) {
      var made :| made in cuts && !(Legacy(reg) <= made);
      var v :| v in Legacy(reg) && v !in made;
      var run := CutLosesMigration(reg, cuts, made, v);
      NotComplete(reg, run[|run| - 1].committed, v);
    } else {
      forall run: seq<Sys>, i | IsCutRun(reg, cuts, run) && 0 <= i < |run| && run[i].pc.Succeeded?
        ensures Complete(reg, run[i].committed)
      {
        CutRunsKeepInvariant(reg, cuts, run, i);
        InvariantCompletes(reg, run[i]);
      }
    }
  }

  lemma NotComplete(reg: Registry, db: Db, v: int)
    requires v in Versions(reg) && v !in db.applied
    ensures !Complete(reg, db)
  {
  }

  lemma InvariantCompletes(reg: Registry, s: Sys)
    requires Invariant(reg, s) && s.pc.Succeeded?
    ensures Complete(reg, s.committed)
  {
  }

  // If the creation can break off before any legacy version is complete, a registry is complete in
  // every run exactly when it is commit safe and has no legacy version at all.
  lemma CompleteIffNoLegacy(reg: Registry)
    requires WellFormed(reg)
    ensures AlwaysCompleteWithCuts(reg, {{}}) <==> CommitSafe(reg) && Legacy(reg) == {}
  {
    CompleteIffSafeWithCuts(reg, {{}});
    var nothing: set<int> := {};
    assert nothing in {nothing};
    if Legacy(reg) == {} {
      assert CutsAreHarmless(reg, {nothing});
    }
  }

  // ------------------------------------------------------------ the registry as shipped

  // Entries 1 .. 81, then 84, 85, 82, 87, 86, then 88 .. 100.
  function VersionAt(i: nat): int {
    if i < 81 then i + 1
    else if i == 81 then 84
    else if i == 82 then 85
    else if i == 83 then 82
    else if i == 84 then 87
    else if i == 85 then 86
    else i + 2
  }

  // Versions whose body contains a commit.
  const COMMITTING: set<int> :=
    (set v | 1 <= v <= 29 && v != 14 && v != 15) + {48, 50, 51, 52, 53, 54, 61, 63} + (set v | 65 <= v <= 75)
    + {85, 90, 91, 98}

  function Shipped(): Registry {
    seq(99, (i: nat) => Migration(VersionAt(i), VersionAt(i) in COMMITTING))
  }

  // Versions 1 to 100 but 83, in rising order except for the stretch 84, 85, 82, 87, 86.
  lemma ShippedIs(v: int)
    ensures |Shipped()| == 99 && ((exists i :: 0 <= i < 99 && Shipped()[i].version == v) <==> 1 <= v <= 100 && v != 83)
    ensures forall i, j :: 0 <= i < j < 99 ==>
              (Shipped()[i].version < Shipped()[j].version
               <==> (Shipped()[i].version, Shipped()[j].version) !in {(84, 82), (85, 82), (87, 86)})
  {
    if 1 <= v <= 100 && v != 83 {
      var i := if v <= 81 then v - 1 else if v >= 88 then v - 2 else [83, 0, 81, 82, 85, 84][v - 82];
      assert Shipped()[i].version == v;
    }
  }

  // The one window that loses a migration: the commit in body 85, after 84 is recorded and before 82.
  lemma ShippedWindow(a: nat, k: nat, b: nat)
    requires a < k <= b < |Shipped()| && Shipped()[k].commits
    ensures Shipped()[a].version >= Shipped()[b].version
       <==> Shipped()[a].version == 84 && Shipped()[k].version == 85 && Shipped()[b].version == 82
  {
    assert Shipped()[k].version in COMMITTING;
  }

  lemma ShippedIsWellFormed()
    ensures WellFormed(Shipped())
  {
    assert forall i, j :: 0 <= i < j < 99 ==> VersionAt(i) != VersionAt(j);
  }

  lemma ShippedIsUnsafe()
    ensures WellFormed(Shipped()) && !CommitSafe(Shipped()) && !AlwaysComplete(Shipped())
  {
    ShippedIsWellFormed();
    var reg := Shipped();
    assert !CommitSafe(reg) by {
      assert reg[82].commits && reg[81].version >= reg[83].version;
    }
    CompleteIffCommitSafe(reg);
  }

  // Without a death inside the creation of a fresh schema, moving the commit out of body 85 is
  // enough, and so is sorting the registry.
  lemma ShippedWithoutThatCommit(reg: Registry)
    requires |reg| == |Shipped()|
    requires forall i :: 0 <= i < |reg| ==>
      reg[i] == if Shipped()[i].version == 85 then Migration(85, false) else Shipped()[i]
    ensures AlwaysComplete(reg)
  {
    forall a, k, b | 0 <= a < k <= b < |reg| && reg[k].commits ensures reg[a].version < reg[b].version {
      ShippedWindow(a, k, b);
    }
    CompleteIffCommitSafe(reg);
  }

  lemma SortedIsComplete(reg: Registry)
    requires Sorted(reg) && forall i :: 0 <= i < |reg| ==> reg[i].version > 0
    ensures AlwaysComplete(reg)
  {
    SortedIsCommitSafe(reg);
    CompleteIffCommitSafe(reg);
  }

  // Version 19 makes table design_conversations, which the fresh schema creates long after triggers.
  // Breaking off in between loses it, for the shipped order and for a sorted registry alike.
  lemma FreshSchemaCanLose19(reg: Registry)
    requires WellFormed(reg) && 19 in Versions(reg)
    ensures !AlwaysCompleteWithCuts(reg, {Legacy(reg) - {19}})
  {
    var made := Legacy(reg) - {19};
    assert 19 in Legacy(reg) && 19 !in made && made in {made};
    CompleteIffSafeWithCuts(reg, {made});
  }

  lemma ShippedCanLose19()
    ensures 19 in Versions(Shipped()) && !AlwaysCompleteWithCuts(Shipped(), {Legacy(Shipped()) - {19}})
  {
    ShippedIsWellFormed();
    assert Shipped()[18].version == 19;
    FreshSchemaCanLose19(Shipped());
  }

  // ------------------------------------------------------------ init_db itself

  // How a body behaves when it is called: whether it commits before and after its effect is
  // complete (only bodies that contain a commit can), and whether it raises.
  datatype Fate = Fate(commitsEarly: bool, raises: bool, commitsLate: bool)

  method CurrentVersion(recorded: set<int>) returns (c: int)
    ensures IsCurrent(c, recorded)
  {
    c := 0;
    var rest := recorded;
    while rest != {}
      invariant rest <= recorded
      invariant rest == recorded ==> c == 0
      invariant rest != recorded ==> c in recorded && forall v :: v in recorded && v !in rest ==> v <= c
      decreases |rest|
    {
      ghost var some := Member(rest);
      var v :| v in rest;
      c := if rest == recorded || v > c then v else c;
      rest := rest - {v};
    }
  }

  // Versions among the first n entries that are higher than a bound.
  function Above(reg: Registry, bound: int, n: nat): set<int>
    requires n <= |reg|
  {
    set j | 0 <= j < n && reg[j].version > bound :: reg[j].version
  }

  lemma AboveGrows(reg: Registry, bound: int, n: nat)
    requires n < |reg|
    ensures Above(reg, bound, n + 1)
         == Above(reg, bound, n) + if reg[n].version > bound then {reg[n].version} else {}
    ensures Above(reg, bound, n) <= Above(reg, bound, |reg|)
  {
    var v := reg[n].version;
    forall x | x in Above(reg, bound, n) ensures x in Above(reg, bound, n + 1) && x in Above(reg, bound, |reg|) {
      var j :| 0 <= j < n && reg[j].version > bound && reg[j].version == x;
      assert 0 <= j < |reg|;
    }
    if v > bound {
      assert v in Above(reg, bound, n + 1);
    }
  }

  lemma FreshIsAll(reg: Registry)
    ensures (set v | v in Versions(reg) && v <= 29) + Above(reg, 29, |reg|) == Versions(reg)
    ensures {} + Passed(reg, true, 0, |reg|) == Versions(reg)
  {
  }

  // From the records of versions up to 29, the loop passes exactly the versions from 30 on.
  lemma UntrackedIsAll(reg: Registry, current: int)
    requires IsCurrent(current, set v | v in Versions(reg) && v <= 29)
    ensures (set v | v in Versions(reg) && v <= 29) + Passed(reg, false, current, |reg|) == Versions(reg)
    ensures Above(reg, current, |reg|) == set v | v in Versions(reg) && v >= 30
  {
    var legacy := set v | v in Versions(reg) && v <= 29;
    forall v | v in Versions(reg)
      ensures v <= 29 <==> v in legacy
      ensures v >= 30 ==> v in Above(reg, current, |reg|) && v in Passed(reg, false, current, |reg|)
    {
      var j :| 0 <= j < |reg| && reg[j].version == v;
    }
    forall v | v in Above(reg, current, |reg|) ensures v in Versions(reg) && v >= 30 {
      assert v in legacy ==> v <= current;
    }
  }

  lemma AboveNone(reg: Registry, bound: int, start: set<int>)
    ensures start + Above(reg, bound, 0) == start
  {
  }

  lemma FinalCommit(reg: Registry, before: seq<Sys>, blank: bool, current: int, base: set<int>)
    returns (run: seq<Sys>)
    requires before != [] && Steps(reg, before) && Last(before).pc == AtEntry(blank, current, base, |reg|)
    ensures run != [] && Steps(reg, run) && run[0] == before[0]
    ensures Last(run) == Sys(Last(before).working, Last(before).working, Succeeded(blank, current, base))
  {
    run := Extend(reg, before, Commit);
  }

  lemma UpgradeRun(reg: Registry, db: Db) returns (run: seq<Sys>)
    requires db.kind.IntegerBots?
    ensures Steps(reg, run) && run[0] == Sys(db, db, Down)
    ensures Last(run) == Sys(db.(kind := TextBots), db.(kind := TextBots), Upgraded)
  {
    run := Extend(reg, [Sys(db, db, Down)], Start(0));
  }

  lemma OneCut(reg: Registry, a: Sys, b: Sys, made: set<int>)
    requires IsCut(reg, a, b, made)
    ensures CutSteps(reg, {made}, [a, b])
  {
  }

  class Database {
    var committed: Db
    var working: Db   // what the open connection sees

    method CommitWork()
      modifies this`committed
      ensures committed == working
    {
      committed := working;
    }

    method Close()
      modifies this`working
      ensures working == committed
    {
      working := committed;
    }

    // Create the schema of an empty database, or the version table of an existing one. A database with
    // table triggers and no version table is taken to have versions 1 to 29, and no others.
    method Prepare(reg: Registry) returns (blank: bool, current: int, ghost base: set<int>, ghost run: seq<Sys>)
      requires working == committed && !committed.kind.IntegerBots?
      modifies this
      ensures Steps(reg, run) && run[0] == Sys(old(committed), old(committed), Down)
      ensures Last(run) == Sys(committed, working, AtEntry(blank, current, base, 0))
      ensures working.recorded == Some(base + Passed(reg, blank, current, 0))
      ensures blank == old(committed).kind.Empty?
      ensures if blank then base == {} && current == 0
              else base == Recorded(Bootstrap(reg, old(committed))) && IsCurrent(current, base)
      ensures old(committed).recorded.None? && old(committed).kind.Triggers? ==>
                base == set v | v in Versions(reg) && v <= 29
      ensures old(committed).recorded.None? && old(committed).kind.TextBots? ==> base == {}
      ensures old(committed).recorded.Some? && !blank ==> base == old(committed).recorded.value
      ensures working.applied == committed.applied
      ensures working.applied == old(committed).applied + if blank then set v | v in Versions(reg) && v <= 29 else {}
    {
      run := [Sys(committed, working, Down)];
      blank := committed.kind.Empty?;
      if blank {
        current, base := 0, {};
        run := Extend(reg, run, Start(0));
        working := FreshSchema(reg, working);
        CommitWork();
      } else {
        base := Recorded(Bootstrap(reg, committed));
        var db := Bootstrap(reg, working);
        committed := TableCreated(committed);
        working := db;
        current := CurrentVersion(Recorded(working));
        run := Extend(reg, run, Start(current));
      }
      assert working.recorded.value == base + Passed(reg, blank, current, 0);
    }

    // One turn of the loop over the registry: the body runs above version 29 in a fresh schema, and above
    // the highest recorded version otherwise.
    method RunEntry(reg: Registry, blank: bool, current: int, ghost base: set<int>, i: nat, fate: Fate,
                    ghost before: seq<Sys>)
      returns (raised: bool, ghost run: seq<Sys>)
      requires i < |reg| && before != [] && Steps(reg, before)
      requires Last(before) == Sys(committed, working, AtEntry(blank, current, base, i))
      requires working.recorded == Some(base + Passed(reg, blank, current, i))
      requires committed.applied <= working.applied
      modifies this
      ensures run != [] && Steps(reg, run) && run[0] == before[0]
      ensures raised ==> Last(run) == Sys(committed, working, Down) && working == committed
      ensures !raised ==> Last(run) == Sys(committed, working, AtEntry(blank, current, base, i + 1))
      ensures !raised ==> working.recorded == Some(base + Passed(reg, blank, current, i + 1))
      ensures committed.applied <= working.applied
      ensures raised ==> working.applied <= old(working.applied)
      ensures !raised ==>
                var v := reg[i].version;
                working.applied == old(working.applied) + if v > if blank then 29 else current then {v} else {}
    {
      raised := false;
      var v := reg[i].version;
      run := Extend(reg, before, Visit);
      if Runs(blank, current, v) {
        if reg[i].commits && fate.commitsEarly {
          CommitWork();
          run := Extend(reg, run, BodyCommit);
        }
        if fate.raises {
          Close();
          run := Extend(reg, run, Crash);
          return true, run;
        }
        working := working.(applied := working.applied + {v});
        run := Extend(reg, run, Finish);
        if reg[i].commits && fate.commitsLate {
          CommitWork();
          run := Extend(reg, run, BodyCommit);
        }
        working := Record(working, v);
        run := Extend(reg, run, Write);
      } else if blank {
        working := Record(working, v);
      }
      PassedGrows(reg, blank, current, i);
      assert working.recorded.value == base + Passed(reg, blank, current, i + 1);
    }

    // The loop over the registry and the final commit.
    method VisitRegistry(reg: Registry, fates: int -> Fate, blank: bool, current: int, ghost base: set<int>,
                         ghost before: seq<Sys>)
      returns (ok: bool, ghost run: seq<Sys>)
      requires before != [] && Steps(reg, before)
      requires Last(before) == Sys(committed, working, AtEntry(blank, current, base, 0))
      requires working.recorded == Some(base + Passed(reg, blank, current, 0))
      requires committed.applied <= working.applied
      modifies this
      ensures run != [] && Steps(reg, run) && run[0] == before[0]
      ensures Last(run) == Sys(committed, working, if ok then Succeeded(blank, current, base) else Down)
      ensures working == committed
      ensures ok ==> committed.recorded == Some(base + Passed(reg, blank, current, |reg|))
      ensures ok ==> committed.applied == old(working.applied) + Above(reg, if blank then 29 else current, |reg|)
      ensures committed.applied <= old(working.applied) + Above(reg, if blank then 29 else current, |reg|)
    {
      hide *;
      run := before;
      ghost var bound := if blank then 29 else current;
      ghost var start := working.applied;
      AboveNone(reg, bound, start);
      for i := 0 to |reg|
        invariant run != [] && Steps(reg, run) && run[0] == before[0]
        invariant Last(run) == Sys(committed, working, AtEntry(blank, current, base, i))
        invariant working.recorded == Some(base + Passed(reg, blank, current, i))
        invariant working.applied == start + Above(reg, bound, i) && committed.applied <= working.applied
      {
        AboveGrows(reg, bound, i);
        var raised;
        raised, run := RunEntry(reg, blank, current, base, i, fates(reg[i].version), run);
        if raised {
          return false, run;
        }
      }
      CommitWork();
      run := FinalCommit(reg, run, blank, current, base);
      ok := true;
    }

    // Every call is a run of the machine above: `run` starts where the database was and ends where it
    // is now. With `cut` the creation of a fresh schema fails or dies where these versions are complete.
    method InitDb(reg: Registry, fates: int -> Fate, cut: Option<set<int>>) returns (ok: bool, ghost run: seq<Sys>)
      requires working == committed
      modifies this
      ensures CutSteps(reg, if cut.Some? then {cut.value} else {}, run)
      ensures cut.None? ==> Steps(reg, run)
      ensures run[0] == Sys(old(committed), old(committed), Down)
      ensures Last(run).committed == committed && Last(run).working == working == committed
      ensures if ok then Last(run).pc.Succeeded? || Last(run).pc.Upgraded? else Last(run).pc.Down?
      ensures old(committed).kind.Empty? && cut.Some? ==> !ok && committed == CutSchema(reg, old(committed), cut.value)
      // An existing database: every body above the highest recorded version runs, and no other.
      ensures ok && !old(committed).kind.Empty? && !old(committed).kind.IntegerBots? ==>
                exists c :: IsCurrent(c, Recorded(Bootstrap(reg, old(committed))))
                  && committed.recorded
                     == Some(Recorded(Bootstrap(reg, old(committed))) + Passed(reg, false, c, |reg|))
                  && committed.applied == old(committed).applied + Above(reg, c, |reg|)
      // Without version table but with table triggers, that is every body from version 30 on.
      ensures ok && old(committed).kind.Triggers? && old(committed).recorded.None? ==>
                && committed.recorded == Some(Versions(reg))
                && (forall v :: v in Versions(reg) && v >= 30 ==> v in committed.applied)
                && (forall v :: v <= 29 ==> (v in committed.applied <==> v in old(committed).applied))
      // An empty one gets versions 1 to 29 with the schema and the rest by their bodies.
      ensures ok && old(committed).kind.Empty? ==>
                && committed.recorded == Some(Versions(reg))
                && committed.applied == old(committed).applied + Versions(reg)
    {
      hide CutSteps, Steps, Passed, Above, Enabled;
      ghost var cuts := if cut.Some? then {cut.value} else {};
      if committed.kind.IntegerBots? {
        run := UpgradeRun(reg, committed);
        StepsAreCutSteps(reg, cuts, run);
        working := working.(kind := TextBots);
        CommitWork();
        return true, run;
      }
      if committed.kind.Empty? && cut.Some? {
        ghost var before := Sys(committed, working, Down);
        working := CutSchema(reg, working, cut.value);
        CommitWork();
        run := [before, Sys(committed, working, Down)];
        OneCut(reg, before, run[1], cut.value);
        return false, run;
      }
      var blank, current;
      ghost var base;
      blank, current, base, run := Prepare(reg);
      ok, run := VisitRegistry(reg, fates, blank, current, base, run);
      StepsAreCutSteps(reg, cuts, run);
      if blank {
        FreshIsAll(reg);
      } else if old(committed).recorded.None? && old(committed).kind.Triggers? {
        UntrackedIsAll(reg, current);
      }
    }
  }
}
