// Throttled health alerts and their purge (backend/app/db/health_alerts.py), times in whole seconds.
module HealthAlerts {
  import opened Prelude

  const WINDOW := 1800
  const DAY := 86400

  datatype Alert = Alert(id: nat, kind: string, trigger: string, created: int)

  // Rows of health_alerts in id order, the next AUTOINCREMENT id, and every alert ever inserted.
  datatype State = State(alerts: seq<Alert>, nextId: nat, log: seq<Alert>)

  datatype Event = Create(now: int, kind: string, trigger: string) | Purge(now: int, days: int)

  const EMPTY := State([], 1, [])

  predicate SamePair(a: Alert, kind: string, trigger: string) { a.kind == kind && a.trigger == trigger }

  // A stored alert of the pair is less than 30 minutes old.
  predicate Suppressed(alerts: seq<Alert>, now: int, kind: string, trigger: string) {
    exists i :: 0 <= i < |alerts| && SamePair(alerts[i], kind, trigger) && alerts[i].created > now - WINDOW
  }

  // created_at < datetime('now', '-N days'); for a negative N the modifier is "--N days", which
  // SQLite turns into NULL, so nothing is older.
  predicate Older(a: Alert, now: int, days: int) { days >= 0 && a.created < now - DAY * days }

  // The first n rows without the older ones.
  function Remaining(alerts: seq<Alert>, now: int, days: int, n: nat): seq<Alert>
    requires n <= |alerts|
  {
    if n == 0 then []
    else Remaining(alerts, now, days, n - 1) + if Older(alerts[n - 1], now, days) then [] else [alerts[n - 1]]
  }

  lemma {:induction false} RemainingMembers(alerts: seq<Alert>, now: int, days: int, n: nat, a: Alert)
    requires n <= |alerts|
    ensures a in Remaining(alerts, now, days, n) <==> a in alerts[..n] && !Older(a, now, days)
  {
    if n > 0 {
      RemainingMembers(alerts, now, days, n - 1, a);
      assert alerts[..n] == alerts[..n - 1] + [alerts[n - 1]];
    }
  }

  function Step(s: State, e: Event, triggers: set<string>): State {
    match e
    case Create(now, kind, trigger) =>
      if Suppressed(s.alerts, now, kind, trigger) || trigger !in triggers then s
      else
        var a := Alert(s.nextId, kind, trigger, now);
        State(s.alerts + [a], s.nextId + 1, s.log + [a])
    case Purge(now, days) =>
      s.(alerts := Remaining(s.alerts, now, days, |s.alerts|))
  }

  function After(run: seq<Event>, triggers: set<string>, n: nat): State
    requires n <= |run|
  {
    if n == 0 then EMPTY else Step(After(run, triggers, n - 1), run[n - 1], triggers)
  }

  ghost predicate Monotone(run: seq<Event>) { forall i, j :: 0 <= i < j < |run| ==> run[i].now <= run[j].now }

  // Every purge keeps the last 30 minutes: its days is not zero.
  ghost predicate KeepsWindow(run: seq<Event>) {
    forall i :: 0 <= i < |run| && run[i].Purge? ==> run[i].days != 0
  }

  // Any two alerts ever inserted for one pair are at least 30 minutes apart.
  ghost predicate Spaced(log: seq<Alert>) {
    forall i, j :: 0 <= i < j < |log| && log[i].kind == log[j].kind && log[i].trigger == log[j].trigger ==>
      log[j].created - log[i].created >= 1800
  }

  // Alerts younger than the window are still stored.
  ghost predicate RecentStored(s: State, now: int) {
    && (forall i :: 0 <= i < |s.log| ==> s.log[i].created <= now)
    && (forall i :: 0 <= i < |s.log| && s.log[i].created > now - WINDOW ==> s.log[i] in s.alerts)
    && (forall i :: 0 <= i < |s.alerts| ==> s.alerts[i].created <= now)
  }

  lemma CreateStep(s: State, now: int, kind: string, trigger: string, triggers: set<string>)
    requires Spaced(s.log) && RecentStored(s, now)
    ensures var t := Step(s, Create(now, kind, trigger), triggers); Spaced(t.log) && RecentStored(t, now)
  {
    if !Suppressed(s.alerts, now, kind, trigger) {
      forall i | 0 <= i < |s.log| && SamePair(s.log[i], kind, trigger)
        ensures now - s.log[i].created >= WINDOW
      {
        if s.log[i] in s.alerts {
          var j :| 0 <= j < |s.alerts| && s.alerts[j] == s.log[i];
        }
      }
    }
  }

  lemma PurgeStep(s: State, now: int, days: int, triggers: set<string>)
    requires days != 0 && Spaced(s.log) && RecentStored(s, now)
    ensures var t := Step(s, Purge(now, days), triggers); Spaced(t.log) && RecentStored(t, now)
  {
    var t := Step(s, Purge(now, days), triggers);
    hide Remaining;
    assert s.alerts[..|s.alerts|] == s.alerts;
    forall i | 0 <= i < |t.log| && t.log[i].created > now - WINDOW ensures t.log[i] in t.alerts {
      RemainingMembers(s.alerts, now, days, |s.alerts|, t.log[i]);
      assert days >= 0 ==> DAY * days >= DAY;
    }
    forall i | 0 <= i < |t.alerts| ensures t.alerts[i].created <= now {
      RemainingMembers(s.alerts, now, days, |s.alerts|, t.alerts[i]);
    }
  }

  // The clock may move on before the next call.
  lemma Wait(s: State, earlier: int, now: int)
    requires earlier <= now && RecentStored(s, earlier)
    ensures RecentStored(s, now)
  {
  }

  lemma {:induction false} RunKeeps(run: seq<Event>, triggers: set<string>, n: nat)
    requires n <= |run| && Monotone(run) && KeepsWindow(run)
    ensures Spaced(After(run, triggers, n).log)
    ensures n > 0 ==> RecentStored(After(run, triggers, n), run[n - 1].now)
  {
    if n > 0 {
      RunKeeps(run, triggers, n - 1);
      var s, e := After(run, triggers, n - 1), run[n - 1];
      if n > 1 {
        Wait(s, run[n - 2].now, e.now);
      }
      assert RecentStored(s, e.now);
      hide Step, Spaced, RecentStored;
      match e {
        case Create(now, kind, trigger) => CreateStep(s, now, kind, trigger, triggers);
        case Purge(now, days) => PurgeStep(s, now, days, triggers);
      }
    }
  }

  // Throttling over whole runs: with a monotone clock and no purge of zero days, alerts of one
  // pair are at least 30 minutes apart, also across purges.
  lemma AlertsAreSpaced(run: seq<Event>, triggers: set<string>)
    requires Monotone(run) && KeepsWindow(run)
    ensures Spaced(After(run, triggers, |run|).log)
  {
    RunKeeps(run, triggers, |run|);
  }

  // All purges of the run use the same number of days.
  ghost predicate PurgesWith(run: seq<Event>, days: int) {
    forall i :: 0 <= i < |run| && run[i].Purge? ==> run[i].days == days
  }

  ghost predicate ThrottlesWith(days: int) {
    forall run: seq<Event>, triggers: set<string> :: Monotone(run) && PurgesWith(run, days) ==>
      Spaced(After(run, triggers, |run|).log)
  }

  // Purging zero days is the one setting that lets two alerts of a pair come close together.
  lemma PurgeDaysExactly(days: int)
    ensures ThrottlesWith(days) <==> days != 0
  {
    if days == 0 {
      ZeroDaysBreaks("t");
    } else {
      forall run: seq<Event>, triggers: set<string> | Monotone(run) && PurgesWith(run, days)
        ensures Spaced(After(run, triggers, |run|).log)
      {
        AlertsAreSpaced(run, triggers);
      }
    }
  }

  // Create, purge zero days one second later, create again.
  function ZeroDaysRun(t: string): seq<Event> { [Create(0, "k", t), Purge(1, 0), Create(1, "k", t)] }

  lemma ZeroDaysBreaks(t: string)
    ensures Monotone(ZeroDaysRun(t)) && PurgesWith(ZeroDaysRun(t), 0)
    ensures !Spaced(After(ZeroDaysRun(t), {t}, 3).log)
  {
    var run := ZeroDaysRun(t);
    var a, b := Alert(1, "k", t, 0), Alert(2, "k", t, 1);
    assert After(run, {t}, 1) == State([a], 2, [a]);
    assert Remaining([a], 1, 0, 0) == [];
    assert After(run, {t}, 2) == State([], 2, [a]);
    assert After(run, {t}, 3) == State([b], 3, [a, b]);
    assert [a, b][0].kind == [a, b][1].kind;
  }

  // No alert comes from the future.
  lemma {:induction false} StoredArePast(run: seq<Event>, triggers: set<string>, n: nat)
    requires n <= |run| && Monotone(run)
    ensures forall a :: a in After(run, triggers, n).alerts ==> n > 0 && a.created <= run[n - 1].now
  {
    if n > 0 {
      StoredArePast(run, triggers, n - 1);
      var s := After(run, triggers, n - 1);
      hide Remaining;
      if run[n - 1].Purge? {
        assert s.alerts[..|s.alerts|] == s.alerts;
        forall a | a in After(run, triggers, n).alerts ensures a in s.alerts {
          RemainingMembers(s.alerts, run[n - 1].now, run[n - 1].days, |s.alerts|, a);
        }
      }
    }
  }

  // A call is suppressed only by a stored alert of the pair that is less than 30 minutes old.
  lemma SuppressedByRecent(run: seq<Event>, triggers: set<string>, n: nat) returns (a: Alert)
    requires n < |run| && Monotone(run)
    requires run[n].Create? && Suppressed(After(run, triggers, n).alerts, run[n].now, run[n].kind, run[n].trigger)
    ensures a in After(run, triggers, n).alerts && a.kind == run[n].kind && a.trigger == run[n].trigger
    ensures 0 <= run[n].now - a.created < 1800
  {
    StoredArePast(run, triggers, n);
    var alerts := After(run, triggers, n).alerts;
    var i :| && 0 <= i < |alerts| && SamePair(alerts[i], run[n].kind, run[n].trigger)
             && alerts[i].created > run[n].now - WINDOW;
    a := alerts[i];
    assert a in alerts;
  }

  datatype Outcome = Raised | Skipped | Inserted(id: nat)

  lemma {:induction false} RemainingShorter(alerts: seq<Alert>, now: int, days: int, n: nat)
    requires n <= |alerts|
    ensures |Remaining(alerts, now, days, n)| <= n
  {
    if n > 0 {
      RemainingShorter(alerts, now, days, n - 1);
    }
  }

  class Alerts {
    var alerts: seq<Alert>
    var nextId: nat
    var triggers: set<string>
    ghost var log: seq<Alert>

    ghost function Current(): State
      reads this
    {
      State(alerts, nextId, log)
    }

    constructor (known: set<string>)
      ensures Current() == EMPTY && triggers == known
    {
      alerts, nextId, triggers, log := [], 1, known, [];
    }

    // The SELECT for a recent alert of the pair.
    method FindRecent(now: int, kind: string, trigger: string) returns (found: bool)
      ensures found <==> Suppressed(alerts, now, kind, trigger)
      ensures found <==> exists i :: && 0 <= i < |alerts| && alerts[i].kind == kind && alerts[i].trigger == trigger
                                     && alerts[i].created > now - 1800
    {
      for i := 0 to |alerts|
        invariant forall j :: 0 <= j < i ==> !(SamePair(alerts[j], kind, trigger) && alerts[j].created > now - WINDOW)
      {
        if SamePair(alerts[i], kind, trigger) && alerts[i].created > now - WINDOW {
          return true;
        }
      }
      found := false;
    }

    // Raised stands for the failing foreign key of an unknown trigger.
    method CreateHealthAlert(now: int, kind: string, trigger: string) returns (outcome: Outcome)
      modifies `alerts, `nextId, `log
      ensures Current() == Step(old(Current()), Create(now, kind, trigger), triggers)
      ensures outcome == (if Suppressed(old(alerts), now, kind, trigger) then Skipped
                          else if trigger !in triggers then Raised
                          else Inserted(old(nextId)))
      ensures outcome == Skipped <==>
                exists i :: && 0 <= i < |old(alerts)|
                            && old(alerts)[i].kind == kind && old(alerts)[i].trigger == trigger
                            && old(alerts)[i].created > now - 1800
      ensures outcome == Raised ==> trigger !in triggers
      ensures outcome.Inserted? ==> trigger in triggers && outcome.id == old(nextId)
      ensures if outcome.Inserted? then
                alerts == old(alerts) + [Alert(old(nextId), kind, trigger, now)] && nextId == old(nextId) + 1
              else alerts == old(alerts) && nextId == old(nextId)
    {
      var found := FindRecent(now, kind, trigger);
      if found {
        return Skipped;
      }
      if trigger !in triggers {
        return Raised;
      }
      var a := Alert(nextId, kind, trigger, now);
      outcome := Inserted(nextId);
      alerts, nextId, log := alerts + [a], nextId + 1, log + [a];
    }

    method DeleteOldAlerts(now: int, days: int) returns (count: nat)
      modifies `alerts
      ensures Current() == Step(old(Current()), Purge(now, days), triggers)
      ensures count == |old(alerts)| - |alerts|
      ensures forall a :: a in alerts <==> a in old(alerts) && (days < 0 || a.created >= now - 86400 * days)
    {
      assert alerts[..|alerts|] == alerts;
      forall a ensures a in Remaining(alerts, now, days, |alerts|) <==>
                         a in alerts && (days < 0 || a.created >= now - 86400 * days)
      {
        RemainingMembers(alerts, now, days, |alerts|, a);
      }
      RemainingShorter(alerts, now, days, |alerts|);
      var after := Remaining(alerts, now, days, |alerts|);
      count := |alerts| - |after|;
      alerts := after;
    }
  }
}
