// The time-limited cache in front of the API key count (backend/app/db/rbac.py).
//
// The protocol part models every lock section, database statement and clock
// sample as one atomic step, interleaved in any order by any number of
// threads.  The class part is the same code called without overlap.
module KeyCache {
  import opened Prelude

  const TTL: real := 5.0
  const VALID_ROLES: set<string> := {"viewer", "operator", "editor", "admin"}

  datatype KeyRow = KeyRow(apiKey: string, title: string, role: string)

  type Rows = map<string, KeyRow>

  // Contents of the module-level dictionary; both of its keys are always written together.
  datatype Entry = Entry(result: bool, ts: real)

  predicate HasKeys(rows: Rows) { rows != map[] }

  // First lock section: the cached answer, unless there is none or it has expired.
  function Lookup(cache: Option<Entry>, now: real): Option<bool> {
    if cache.Some? && now - cache.value.ts < TTL then Some(cache.value.result) else None
  }

  // The constraints of table user_roles: primary key, UNIQUE(api_key), CHECK(role).
  predicate InsertAllowed(rows: Rows, id: string, row: KeyRow) {
    && row.role in VALID_ROLES
    && id !in rows
    && (forall k :: k in rows ==> rows[k].apiKey != row.apiKey)
  }

  // ------------------------------------------------------------ protocol

  datatype Pc =
    | Idle
    | Looking(now: real)                   // clock sampled, cache not read yet
    | Counting(now: real)                  // cache missed
    | Storing(now: real, result: bool)     // counted, answer not cached yet
    | Returned(now: real, result: bool)
    | Invalidating                         // rows committed, cache not cleared yet

  datatype Sys = Sys(clock: real, rows: Rows, cache: Option<Entry>, pcs: map<nat, Pc>)

  datatype Event =
    | Tick(elapsed: real)
    | Begin(t: nat)
    | Look(t: nat)
    | Count(t: nat)
    | CountFails(t: nat)
    | Store(t: nat)
    | CommitInsert(t: nat, id: string, row: KeyRow)
    | CommitDelete(t: nat, id: string)
    | Clear(t: nat)
    | ChangedElsewhere(rows: Rows)   // another process writes the table and clears only its own cache

  function PcOf(s: Sys, t: nat): Pc { if t in s.pcs then s.pcs[t] else Idle }

  predicate Free(s: Sys, t: nat) { PcOf(s, t).Idle? || PcOf(s, t).Returned? }

  predicate Enabled(s: Sys, e: Event) {
    match e
    case Tick(d) => d >= 0.0
    case Begin(t) => Free(s, t)
    case Look(t) => PcOf(s, t).Looking?
    case Count(t) => PcOf(s, t).Counting?
    case CountFails(t) => PcOf(s, t).Counting?
    case Store(t) => PcOf(s, t).Storing?
    case CommitInsert(t, id, row) => Free(s, t) && InsertAllowed(s.rows, id, row)
    case CommitDelete(t, id) => Free(s, t)
    case Clear(t) => PcOf(s, t).Invalidating?
    case ChangedElsewhere(_) => true
  }

  function Apply(s: Sys, e: Event): Sys
    requires Enabled(s, e)
  {
    match e
    case Tick(d) => s.(clock := s.clock + d)
    case Begin(t) => s.(pcs := s.pcs[t := Looking(s.clock)])
    case Look(t) =>
      var now := PcOf(s, t).now;
      var hit := Lookup(s.cache, now);
      s.(pcs := s.pcs[t := if hit.Some? then Returned(now, hit.value) else Counting(now)])
    case Count(t) => s.(pcs := s.pcs[t := Storing(PcOf(s, t).now, HasKeys(s.rows))])
    case CountFails(t) => s.(pcs := s.pcs[t := Idle])
    case Store(t) =>
      var pc := PcOf(s, t);
      s.(cache := Some(Entry(pc.result, pc.now)), pcs := s.pcs[t := Returned(pc.now, pc.result)])
    case CommitInsert(t, id, row) => s.(rows := s.rows[id := row], pcs := s.pcs[t := Invalidating])
    case CommitDelete(t, id) => s.(rows := s.rows - {id}, pcs := s.pcs[t := Invalidating])
    case Clear(t) => s.(cache := None, pcs := s.pcs[t := Idle])
    case ChangedElsewhere(rows) => s.(rows := rows)
  }

  predicate Initial(s: Sys) { s.cache.None? && s.pcs == map[] }

  ghost predicate IsStep(a: Sys, b: Sys) {
    exists e :: Enabled(a, e) && b == Apply(a, e)
  }

  // A run of the process: any interleaving, any length.
  ghost predicate IsRun(run: seq<Sys>) {
    && |run| > 0
    && Initial(run[0])
    && (forall i :: 0 < i < |run| ==> IsStep(run[i - 1], run[i]))
  }

  // At some moment of the run, at or after time `since`, the table answered `v`.
  ghost predicate AnsweredSince(run: seq<Sys>, since: real, v: bool) {
    exists j :: 0 <= j < |run| && run[j].clock >= since && HasKeys(run[j].rows) == v
  }

  ghost predicate AnsweredAfter(run: seq<Sys>, bound: real, v: bool) {
    exists j :: 0 <= j < |run| && run[j].clock > bound && HasKeys(run[j].rows) == v
  }

  ghost predicate PcJustified(run: seq<Sys>, pc: Pc)
    requires |run| > 0
  {
    match pc
    case Looking(now) => now <= run[|run| - 1].clock
    case Counting(now) => now <= run[|run| - 1].clock
    case Storing(now, v) => AnsweredSince(run, now, v)
    case Returned(now, v) => AnsweredAfter(run, now - TTL, v)
    case _ => true
  }

  ghost predicate Justified(run: seq<Sys>)
    requires |run| > 0
  {
    var s := run[|run| - 1];
    && (s.cache.Some? ==> AnsweredSince(run, s.cache.value.ts, s.cache.value.result))
    && (forall t :: t in s.pcs ==> PcJustified(run, s.pcs[t]))
  }

  lemma AnsweredExtends(run: seq<Sys>, s: Sys, since: real, v: bool)
    ensures AnsweredSince(run, since, v) ==> AnsweredSince(run + [s], since, v)
    ensures AnsweredAfter(run, since, v) ==> AnsweredAfter(run + [s], since, v)
  {
    forall j | 0 <= j < |run| ensures (run + [s])[j] == run[j] {}
    if AnsweredSince(run, since, v) {
      var j :| 0 <= j < |run| && run[j].clock >= since && HasKeys(run[j].rows) == v;
      assert (run + [s])[j] == run[j];
    }
    if AnsweredAfter(run, since, v) {
      var j :| 0 <= j < |run| && run[j].clock > since && HasKeys(run[j].rows) == v;
      assert (run + [s])[j] == run[j];
    }
  }

  lemma PcStaysJustified(run: seq<Sys>, s: Sys, pc: Pc)
    requires |run| > 0 && run[|run| - 1].clock <= s.clock
    requires PcJustified(run, pc)
    ensures PcJustified(run + [s], pc)
  {
    match pc
    case Storing(now, v) => AnsweredExtends(run, s, now, v);
    case Returned(now, v) => AnsweredExtends(run, s, now - TTL, v);
    case _ =>
  }

  lemma StepKeepsJustified(run: seq<Sys>, e: Event)
    requires |run| > 0 && Justified(run) && Enabled(run[|run| - 1], e)
    ensures Justified(run + [Apply(run[|run| - 1], e)])
  {
    var s := run[|run| - 1];
    var s' := Apply(s, e);
    var run' := run + [s'];
    assert run'[|run|] == s' && run'[|run| - 1] == s;
    if s.cache.Some? {
      AnsweredExtends(run, s', s.cache.value.ts, s.cache.value.result);
    }
    forall t | t in s'.pcs ensures PcJustified(run', s'.pcs[t]) {
      if t in s.pcs {
        PcStaysJustified(run, s', s.pcs[t]);
      }
      if e.Look? && e.t == t && s'.pcs[t].Returned? {
        var entry := s.cache.value;
        var j :| 0 <= j < |run'| && run'[j].clock >= entry.ts && HasKeys(run'[j].rows) == entry.result;
        assert run'[j].clock > s.pcs[t].now - TTL;
      }
      if e.Count? && e.t == t {
        assert run'[|run|].clock >= s.pcs[t].now && HasKeys(run'[|run|].rows) == HasKeys(s.rows);
      }
      if e.Store? && e.t == t {
        var pc := s.pcs[t];
        var j :| 0 <= j < |run'| && run'[j].clock >= pc.now && HasKeys(run'[j].rows) == pc.result;
        assert run'[j].clock > pc.now - TTL;
      }
    }
    if e.Store? {
      assert PcJustified(run, s.pcs[e.t]);
      AnsweredExtends(run, s', s.pcs[e.t].now, s.pcs[e.t].result);
    }
  }

  lemma {:induction false} RunsAreJustified(run: seq<Sys>)
    requires IsRun(run)
    ensures Justified(run)
  {
    if |run| > 1 {
      var n := |run| - 1;
      var prefix := run[..n];
      forall i | 0 < i < |prefix| ensures IsStep(prefix[i - 1], prefix[i]) {
        assert prefix[i - 1] == run[i - 1] && prefix[i] == run[i];
      }
      RunsAreJustified(prefix);
      assert IsStep(run[n - 1], run[n]);
      var e :| Enabled(run[n - 1], e) && run[n] == Apply(run[n - 1], e);
      StepKeepsJustified(prefix, e);
      assert run == prefix + [Apply(prefix[n - 1], e)];
    }
  }

  lemma {:induction false} PrefixIsRun(run: seq<Sys>, n: nat)
    requires IsRun(run) && 0 < n <= |run|
    ensures IsRun(run[..n])
  {
    var prefix := run[..n];
    forall i | 0 < i < n ensures IsStep(prefix[i - 1], prefix[i]) {
      assert IsStep(run[i - 1], run[i]);
    }
  }

  lemma {:induction false} ClockIsMonotone(run: seq<Sys>, i: nat, j: nat)
    requires IsRun(run) && i <= j < |run|
    ensures run[i].clock <= run[j].clock
    decreases j
  {
    if i < j {
      ClockIsMonotone(run, i, j - 1);
      assert IsStep(run[j - 1], run[j]);
    }
  }

  // Bounded staleness: whatever the interleaving, an answer was true of the table at some
  // moment later than the caller's clock sample minus the TTL, and not after the answer.
  lemma {:induction false} BoundedStaleness(run: seq<Sys>, i: nat, t: nat, now: real, v: bool)
    requires IsRun(run) && i < |run|
    requires PcOf(run[i], t) == Returned(now, v)
    ensures exists j :: 0 <= j <= i && run[j].clock > now - 5.0 && v == (run[j].rows != map[])
  {
    var prefix := run[..i + 1];
    PrefixIsRun(run, i + 1);
    RunsAreJustified(prefix);
    assert prefix[|prefix| - 1] == run[i];
    assert PcJustified(prefix, run[i].pcs[t]);
    var j :| 0 <= j < |prefix| && prefix[j].clock > now - TTL && HasKeys(prefix[j].rows) == v;
    assert prefix[j] == run[j];
  }

  // If the table has answered `b` since moment c, every call sampling its clock a TTL later answers `b`.
  lemma {:induction false} SettledAfterTtl(run: seq<Sys>, c: nat, i: nat, t: nat, now: real, v: bool, b: bool)
    requires IsRun(run) && c <= i < |run|
    requires forall k :: c <= k <= i ==> b == (run[k].rows != map[])
    requires PcOf(run[i], t) == Returned(now, v)
    requires now >= run[c].clock + 5.0
    ensures v == b
  {
    BoundedStaleness(run, i, t, now, v);
    var j :| 0 <= j <= i && run[j].clock > now - 5.0 && v == (run[j].rows != map[]);
    if j < c {
      ClockIsMonotone(run, j, c);
    }
  }

  // The events of the run below: a reader counts an empty table, a key is committed and the
  // cache cleared, and only then does the reader store its old answer; d seconds later a
  // second reader finds it.
  function TightEvents(d: real, id: string, row: KeyRow): seq<Event> {
    [Begin(0), Look(0), Count(0), CommitInsert(1, id, row), Clear(1), Store(0), Tick(d), Begin(2), Look(2)]
  }

  function TightStates(d: real, id: string, row: KeyRow): seq<Sys> {
    var keys: Rows := map[id := row];
    var stale := Some(Entry(false, 0.0));
    [ Sys(0.0, map[], None, map[]),
      Sys(0.0, map[], None, map[0 := Looking(0.0)]),
      Sys(0.0, map[], None, map[0 := Counting(0.0)]),
      Sys(0.0, map[], None, map[0 := Storing(0.0, false)]),
      Sys(0.0, keys, None, map[0 := Storing(0.0, false), 1 := Invalidating]),
      Sys(0.0, keys, None, map[0 := Storing(0.0, false), 1 := Idle]),
      Sys(0.0, keys, stale, map[0 := Returned(0.0, false), 1 := Idle]),
      Sys(d, keys, stale, map[0 := Returned(0.0, false), 1 := Idle]),
      Sys(d, keys, stale, map[0 := Returned(0.0, false), 1 := Idle, 2 := Looking(d)]),
      Sys(d, keys, stale, map[0 := Returned(0.0, false), 1 := Idle, 2 := Returned(d, false)]) ]
  }

  lemma TightStep(d: real, id: string, row: KeyRow, i: nat)
    requires 0.0 <= d < TTL && row.role in VALID_ROLES && i < 9
    ensures IsStep(TightStates(d, id, row)[i], TightStates(d, id, row)[i + 1])
  {
    var a, b, e := TightStates(d, id, row)[i], TightStates(d, id, row)[i + 1], TightEvents(d, id, row)[i];
    assert Enabled(a, e);
    if i == 3 {
      assert a.rows[id := row] == map[id := row];
    }
    assert b.pcs == Apply(a, e).pcs;
    assert b == Apply(a, e);
  }

  // The TTL cannot be improved: for every d below it there is a run where a key has been
  // committed and the cache cleared, and a call made d seconds later still answers "no keys".
  lemma {:induction false} StalenessIsTight(d: real, id: string, row: KeyRow) returns (run: seq<Sys>)
    requires 0.0 <= d < 5.0 && row.role in VALID_ROLES
    ensures IsRun(run) && |run| == 10
    ensures run[5].cache.None? && forall k :: 4 <= k < |run| ==> id in run[k].rows
    ensures run[9].clock == run[5].clock + d
    ensures PcOf(run[9], 2) == Returned(run[9].clock, false)
  {
    run := TightStates(d, id, row);
    forall i | 0 < i < |run| ensures IsStep(run[i - 1], run[i]) {
      TightStep(d, id, row, i - 1);
    }
    assert id in map[id := row];
  }

  // ------------------------------------------------------------ calls that do not overlap

  // In one process, never more than one call in progress.
  ghost predicate IsSerialRun(run: seq<Sys>) {
    && IsRun(run)
    && (forall i :: 0 <= i < |run| ==> AtMostOneBusy(run[i]))
    && (forall i :: 0 < i < |run| ==> IsLocalStep(run[i - 1], run[i]))
  }

  ghost predicate IsLocalStep(a: Sys, b: Sys) {
    exists e: Event :: !e.ChangedElsewhere? && Enabled(a, e) && b == Apply(a, e)
  }

  ghost predicate SerialInvariant(s: Sys) {
    && (forall t :: PcOf(s, t).Storing? ==> PcOf(s, t).result == HasKeys(s.rows))
    && (s.cache.Some? && (forall t :: !PcOf(s, t).Invalidating?) ==> s.cache.value.result == HasKeys(s.rows))
  }

  ghost predicate AtMostOneBusy(s: Sys) {
    forall t, u :: !Free(s, t) && !Free(s, u) ==> t == u
  }

  lemma SerialStep(s: Sys, e: Event)
    requires !e.ChangedElsewhere? && Enabled(s, e)
    requires SerialInvariant(s) && AtMostOneBusy(s) && AtMostOneBusy(Apply(s, e))
    ensures SerialInvariant(Apply(s, e))
  {
    var s' := Apply(s, e);
    assert e.CommitInsert? || e.CommitDelete? ==> !Free(s', e.t) && PcOf(s', e.t).Invalidating?;
    forall u | PcOf(s', u).Storing? ensures PcOf(s', u).result == HasKeys(s'.rows) {
      assert !Free(s', u);
      assert (e.Count? && e.t == u) || PcOf(s, u) == PcOf(s', u);
    }
    if !e.Store? && s'.cache.Some? && (forall t :: !PcOf(s', t).Invalidating?) {
      forall t ensures !PcOf(s, t).Invalidating? {
        assert !PcOf(s', t).Invalidating?;
      }
    }
  }

  lemma {:induction false} SerialRunsAreExact(run: seq<Sys>, i: nat)
    requires IsSerialRun(run) && i < |run|
    ensures SerialInvariant(run[i])
  {
    if i > 0 {
      SerialRunsAreExact(run, i - 1);
      assert IsLocalStep(run[i - 1], run[i]);
      var e: Event :| !e.ChangedElsewhere? && Enabled(run[i - 1], e) && run[i] == Apply(run[i - 1], e);
      SerialStep(run[i - 1], e);
    }
  }

  lemma SerialAnswer(s: Sys, e: Event, t: nat)
    requires !e.ChangedElsewhere? && Enabled(s, e)
    requires SerialInvariant(s) && AtMostOneBusy(s)
    requires !Free(s, t) && PcOf(Apply(s, e), t).Returned?
    ensures PcOf(Apply(s, e), t).result == HasKeys(Apply(s, e).rows)
  {
    if e.Look? && e.t == t {
      forall u ensures !PcOf(s, u).Invalidating? {
        assert PcOf(s, u).Invalidating? ==> !Free(s, u);
      }
    }
  }

  // Without overlap an answer is exact at the moment it is given, however old the cache is.
  lemma {:induction false} SerialAnswersAreExact(run: seq<Sys>, i: nat, t: nat)
    requires IsSerialRun(run) && 0 < i < |run|
    requires !Free(run[i - 1], t) && PcOf(run[i], t).Returned?
    ensures PcOf(run[i], t).result == (run[i].rows != map[])
  {
    SerialRunsAreExact(run, i - 1);
    assert IsLocalStep(run[i - 1], run[i]);
    var s := run[i - 1];
    var e: Event :| !e.ChangedElsewhere? && Enabled(s, e) && run[i] == Apply(s, e);
    SerialAnswer(s, e, t);
  }

  // ------------------------------------------------------------ the code, calls not overlapping

  class KeyService {
    var rows: Rows
    var cache: Option<Entry>

    constructor ()
      ensures rows == map[] && cache == None && Exact()
    {
      rows, cache := map[], None;
    }

    // Whatever is cached is what the table would answer now.
    ghost predicate Exact()
      reads this
    {
      cache.Some? ==> cache.value.result == HasKeys(rows)
    }

    method CountUserRoles() returns (n: nat)
      ensures n == |rows| && (n > 0 <==> HasKeys(rows))
    {
      n := |rows|;
    }

    // `now` is the monotonic clock sampled on entry.
    method HasAnyKeys(now: real) returns (r: bool)
      modifies this`cache
      ensures if old(cache.Some? && now - cache.value.ts < 5.0)
              then r == old(cache).value.result && cache == old(cache)
              else r == (rows != map[]) && cache == Some(Entry(r, now))
      ensures old(Exact()) ==> r == HasKeys(rows) && Exact()
    {
      var hit := Lookup(cache, now);
      if hit.Some? {
        return hit.value;
      }
      var n := CountUserRoles();
      r := n > 0;
      cache := Some(Entry(r, now));
    }

    method InvalidateKeyCache()
      modifies this`cache
      ensures cache == None
    {
      cache := None;
    }

    // `id` is the generated role id; the generator retries until it is unused.
    method CreateUserRole(id: string, row: KeyRow) returns (r: Option<string>)
      requires id !in rows
      modifies this
      ensures r == if && row.role in {"viewer", "operator", "editor", "admin"}
                      && forall k :: k in old(rows) ==> old(rows)[k].apiKey != row.apiKey
                   then Some(id) else None
      ensures r.Some? ==> rows == old(rows)[id := row] && cache == None
      ensures r.None? ==> rows == old(rows) && cache == old(cache)
      ensures old(Exact()) ==> Exact()
    {
      if row.role !in VALID_ROLES {
        return None;
      }
      if !InsertAllowed(rows, id, row) {
        return None;
      }
      rows := rows[id := row];
      InvalidateKeyCache();
      r := Some(id);
    }

    method DeleteUserRole(id: string) returns (deleted: bool)
      modifies this
      ensures deleted == (id in old(rows))
      ensures rows == old(rows) - {id} && cache == None
      ensures Exact()
    {
      deleted := id in rows;
      rows := rows - {id};
      InvalidateKeyCache();
    }
  }
}
