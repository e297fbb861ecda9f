// The durable execution queue (backend/app/db/execution_queue.py): every call is one atomic
// statement, issued by any number of workers in any order.
module ExecutionQueue {
  import opened Prelude

  type Id = string

  datatype Status = Pending | Dispatching | Completed | Failed | Cancelled | Other(text: string)

  datatype Entry = Entry(trigger: string, priority: int, status: Status, created: int,
                         dispatchedAt: Option<int>, completedAt: Option<int>)

  type Rows = map<Id, Entry>

  predicate Terminal(s: Status) { s.Completed? || s.Failed? || s.Cancelled? }

  // SET status = ?, with the timestamp column that goes with the new status.
  function WithStatus(e: Entry, s: Status, now: int): Entry {
    if s.Dispatching? then e.(status := s, dispatchedAt := Some(now))
    else if Terminal(s) then e.(status := s, completedAt := Some(now))
    else e.(status := s)
  }

  predicate Concerns(e: Entry, trigger: Option<string>) {
    trigger.None? || trigger.value == "" || e.trigger == trigger.value
  }

  predicate ToCancel(e: Entry, trigger: Option<string>) { e.status.Pending? && Concerns(e, trigger) }

  // completed_at < datetime('now', '-h hours'); a negative h is not a valid modifier and the
  // comparison with NULL keeps every row.
  predicate Expired(e: Entry, hours: int, now: int) {
    Terminal(e.status) && e.completedAt.Some? && hours >= 0 && e.completedAt.value < now - 3600 * hours
  }

  function Reset(e: Entry): Entry {
    if e.status.Dispatching? then e.(status := Pending, dispatchedAt := None) else e
  }

  // ------------------------------------------------------------ statements as steps

  datatype State = State(now: int, rows: Rows)

  datatype Event =
    | Tick(elapsed: nat)
    | Enqueue(id: Id, trigger: string, priority: int)
    | Update(id: Id, to: Status, expected: Option<Status>)
    | CancelPending(only: Option<string>)
    | Cleanup(hours: int)
    | ResetStale

  // INSERT raises when the generated id is taken.
  predicate Inserts(s: State, e: Event) { e.Enqueue? && e.id !in s.rows }

  // An expected status is given; an empty one counts as none.
  predicate Expects(expected: Option<Status>) { expected.Some? && expected.value != Other("") }

  // The WHERE clause of an update matches a row.
  predicate Hits(s: State, e: Event) {
    e.Update? && e.id in s.rows && (Expects(e.expected) ==> s.rows[e.id].status == e.expected.value)
  }

  function Apply(s: State, e: Event): State {
    match e
    case Tick(d) => s.(now := s.now + d)
    case Enqueue(id, t, p) =>
      if Inserts(s, e) then s.(rows := s.rows[id := Entry(t, p, Pending, s.now, None, None)]) else s
    case Update(id, to, _) =>
      if Hits(s, e) then s.(rows := s.rows[id := WithStatus(s.rows[id], to, s.now)]) else s
    case CancelPending(t) =>
      s.(rows := map id | id in s.rows ::
                   if ToCancel(s.rows[id], t) then WithStatus(s.rows[id], Cancelled, s.now) else s.rows[id])
    case Cleanup(h) => s.(rows := map id | id in s.rows && !Expired(s.rows[id], h, s.now) :: s.rows[id])
    case ResetStale => s.(rows := map id | id in s.rows :: Reset(s.rows[id]))
  }

  // A run: states and the events between them.
  ghost predicate IsRun(states: seq<State>, events: seq<Event>) {
    && |states| == |events| + 1
    && (forall i :: 0 <= i < |events| ==> states[i + 1] == Apply(states[i], events[i]))
  }

  function ClaimOf(id: Id): Event { Update(id, Dispatching, Some(Pending)) }

  // Event i is a worker's claim of `id` that succeeds.
  ghost predicate Claims(states: seq<State>, events: seq<Event>, i: nat, id: Id)
    requires IsRun(states, events) && i < |events|
  {
    events[i] == ClaimOf(id) && Hits(states[i], events[i])
  }

  // ------------------------------------------------------------ exclusive claims

  // What makes an entry pending: a stale reset, being enqueued (again), or an update to pending.
  predicate MakesPending(s: State, e: Event, id: Id) {
    || e.ResetStale?
    || (Inserts(s, e) && e.id == id)
    || (e.Update? && e.to.Pending? && e.id == id)
  }

  ghost predicate IsPending(s: State, id: Id) { id in s.rows && s.rows[id].status.Pending? }

  lemma {:induction false} StaysClaimed(states: seq<State>, events: seq<Event>, i: nat, j: nat, id: Id)
    requires IsRun(states, events) && i < j <= |events|
    requires !IsPending(states[i + 1], id)
    requires forall k :: i < k < j ==> !MakesPending(states[k], events[k], id)
    ensures !IsPending(states[j], id)
    decreases j
  {
    if j > i + 1 {
      StaysClaimed(states, events, i, j - 1, id);
      assert states[j] == Apply(states[j - 1], events[j - 1]);
    }
  }

  // Between two successful claims of one entry lies a reset, a re-insertion under its id, or an
  // explicit update to pending.
  lemma ClaimsAreExclusive(states: seq<State>, events: seq<Event>, i: nat, j: nat, id: Id)
    requires IsRun(states, events) && i < j < |events|
    requires Claims(states, events, i, id) && Claims(states, events, j, id)
    ensures exists k :: i < k < j &&
              (|| events[k] == ResetStale
               || (events[k].Enqueue? && events[k].id == id && id !in states[k].rows)
               || (events[k].Update? && events[k].id == id && events[k].to == Pending))
  {
    if forall k :: i < k < j ==> !MakesPending(states[k], events[k], id) {
      assert states[i + 1] == Apply(states[i], events[i]);
      StaysClaimed(states, events, i, j, id);
    }
  }

  // ------------------------------------------------------------ conservation

  // Event k removes `id`, which was terminal and past the age limit.
  ghost predicate CleansUp(states: seq<State>, events: seq<Event>, k: nat, id: Id)
    requires IsRun(states, events) && k < |events|
  {
    events[k].Cleanup? && id in states[k].rows && Expired(states[k].rows[id], events[k].hours, states[k].now)
  }

  // No entry is ever lost: it is still there, or a cleanup removed it when it was due.
  lemma {:induction false} NothingIsLost(states: seq<State>, events: seq<Event>, i: nat, j: nat, id: Id)
    requires IsRun(states, events) && i <= j <= |events|
    requires id in states[i].rows
    ensures id in states[j].rows || exists k :: i <= k < j && CleansUp(states, events, k, id)
    decreases j
  {
    if i < j {
      NothingIsLost(states, events, i, j - 1, id);
      assert states[j] == Apply(states[j - 1], events[j - 1]);
      if id in states[j - 1].rows && id !in states[j].rows {
        assert CleansUp(states, events, j - 1, id);
      }
    }
  }

  lemma {:induction false} ClockRuns(states: seq<State>, events: seq<Event>, i: nat, j: nat)
    requires IsRun(states, events) && i <= j <= |events|
    ensures states[i].now <= states[j].now
    decreases j
  {
    if i < j {
      ClockRuns(states, events, i, j - 1);
      assert states[j] == Apply(states[j - 1], events[j - 1]);
    }
  }

  // In states m to j the entry is there and terminal, and its completion stamp in state j is the time of state m.
  ghost predicate TerminalSince(states: seq<State>, m: nat, j: nat, id: Id)
    requires m <= j < |states|
  {
    && (forall k :: m <= k <= j ==> id in states[k].rows && Terminal(states[k].rows[id].status))
    && states[j].rows[id].completedAt == Some(states[m].now)
  }

  lemma TerminalStep(s: State, e: Event, id: Id)
    requires id in Apply(s, e).rows && Terminal(Apply(s, e).rows[id].status)
    ensures || Apply(s, e).rows[id].completedAt == Some(Apply(s, e).now)
            || (id in s.rows && Apply(s, e).rows[id] == s.rows[id])
  {
  }

  // A terminal entry that did not start out so has been terminal without a break since its completion stamp.
  lemma {:induction false} StampIsSince(states: seq<State>, events: seq<Event>, j: nat, id: Id)
    requires IsRun(states, events) && j <= |events|
    requires id in states[0].rows ==> !Terminal(states[0].rows[id].status)
    requires id in states[j].rows && Terminal(states[j].rows[id].status)
    ensures exists m :: 0 <= m <= j && TerminalSince(states, m, j, id)
  {
    if states[j].rows[id].completedAt == Some(states[j].now) {
      assert TerminalSince(states, j, j, id);
    } else {
      assert j > 0;
      assert states[j] == Apply(states[j - 1], events[j - 1]);
      TerminalStep(states[j - 1], events[j - 1], id);
      StampIsSince(states, events, j - 1, id);
      var m: nat :| m <= j - 1 && TerminalSince(states, m, j - 1, id);
      assert TerminalSince(states, m, j, id);
    }
  }

  // Whatever removes an entry is a cleanup, of h >= 0 hours, and the entry has been completed, failed or
  // cancelled in every state since a moment more than h hours ago.
  lemma RemovedWhenDue(states: seq<State>, events: seq<Event>, k: nat, id: Id)
    requires IsRun(states, events) && k < |events|
    requires id in states[0].rows ==> !Terminal(states[0].rows[id].status)
    requires id in states[k].rows && id !in states[k + 1].rows
    ensures events[k].Cleanup? && events[k].hours >= 0
    ensures exists m :: 0 <= m <= k && TerminalSince(states, m, k, id)
                        && states[m].now < states[k].now - 3600 * events[k].hours
  {
    assert states[k + 1] == Apply(states[k], events[k]);
    StampIsSince(states, events, k, id);
  }

  // ------------------------------------------------------------ disciplined runs

  // What the dispatcher does: claim by compare-and-swap, then finish by compare-and-swap.
  predicate Disciplined(e: Event) {
    e.Update? ==>
      (e.to, e.expected) in {(Dispatching, Some(Pending)), (Completed, Some(Dispatching)), (Failed, Some(Dispatching))}
  }

  // Status and timestamps of an entry agree.
  predicate Coherent(e: Entry) {
    && (Terminal(e.status) <==> e.completedAt.Some?)
    && (e.status.Pending? ==> e.dispatchedAt.None?)
    && (e.status.Dispatching? ==> e.dispatchedAt.Some?)
    && !e.status.Other?
  }

  ghost predicate AllCoherent(s: State) { forall id :: id in s.rows ==> Coherent(s.rows[id]) }

  lemma {:induction false} DisciplinedRunsStayCoherent(states: seq<State>, events: seq<Event>, j: nat)
    requires IsRun(states, events) && j <= |events|
    requires AllCoherent(states[0]) && forall k :: 0 <= k < |events| ==> Disciplined(events[k])
    ensures AllCoherent(states[j])
  {
    if j > 0 {
      DisciplinedRunsStayCoherent(states, events, j - 1);
      assert states[j] == Apply(states[j - 1], events[j - 1]);
      assert Disciplined(events[j - 1]);
    }
  }

  // In a disciplined run a terminal entry never changes again until a cleanup removes it.
  lemma {:induction false} TerminalIsFinal(states: seq<State>, events: seq<Event>, i: nat, j: nat, id: Id)
    requires IsRun(states, events) && i <= j <= |events|
    requires forall k :: 0 <= k < |events| ==> Disciplined(events[k])
    requires id in states[i].rows && Terminal(states[i].rows[id].status)
    ensures || (id in states[j].rows && states[j].rows[id] == states[i].rows[id])
            || exists k :: i <= k < j && CleansUp(states, events, k, id)
    decreases j
  {
    if i < j {
      TerminalIsFinal(states, events, i, j - 1, id);
      assert states[j] == Apply(states[j - 1], events[j - 1]);
      assert Disciplined(events[j - 1]);
      if id in states[j - 1].rows && states[j - 1].rows[id] == states[i].rows[id] && id !in states[j].rows {
        assert CleansUp(states, events, j - 1, id);
      }
    }
  }

  // ------------------------------------------------------------ the concurrency cap

  // Number of entries of a trigger being dispatched.
  function Active(rows: Rows, trigger: string): nat {
    |set id | id in rows && IsActive(rows[id], trigger)|
  }

  predicate IsActive(e: Entry, trigger: string) { e.trigger == trigger && e.status.Dispatching? }

  // The count without entry id.
  function ActiveOthers(rows: Rows, trigger: string, id: Id): nat {
    |set x | x in rows && x != id && IsActive(rows[x], trigger)|
  }

  lemma ActiveSplits(rows: Rows, trigger: string, id: Id)
    requires id in rows
    ensures Active(rows, trigger) == ActiveOthers(rows, trigger, id) + if IsActive(rows[id], trigger) then 1 else 0
  {
    var all := set x | x in rows && IsActive(rows[x], trigger);
    var others := set x | x in rows && x != id && IsActive(rows[x], trigger);
    if IsActive(rows[id], trigger) {
      assert all == others + {id};
    } else {
      assert all == others;
    }
  }

  lemma SameOthers(a: Rows, b: Rows, trigger: string, id: Id)
    requires a.Keys == b.Keys && forall x :: x in a && x != id ==> a[x] == b[x]
    ensures ActiveOthers(a, trigger, id) == ActiveOthers(b, trigger, id)
  {
    assert (set x | x in a && x != id && IsActive(a[x], trigger))
        == (set x | x in b && x != id && IsActive(b[x], trigger));
  }

  // An update moves one entry into the count, out of it, or leaves the count alone.
  lemma ActiveAfterUpdate(s: State, e: Event, trigger: string)
    requires Hits(s, e)
    ensures var after := Apply(s, e).rows;
            Active(after, trigger) + (if IsActive(s.rows[e.id], trigger) then 1 else 0)
            == Active(s.rows, trigger) + (if IsActive(after[e.id], trigger) then 1 else 0)
  {
    hide Active, ActiveOthers, IsActive;
    ActiveSplits(s.rows, trigger, e.id);
    ActiveSplits(Apply(s, e).rows, trigger, e.id);
    SameOthers(s.rows, Apply(s, e).rows, trigger, e.id);
  }

  // The dispatcher thread works on one fetched entry: it reads the trigger's cap, then counts the active
  // entries and compares them with the cap it read, then claims.
  datatype Dispatcher =
    | Looking
    | HasCap(id: Id, trigger: string, cap: nat)
    | Cleared(id: Id, trigger: string)

  const DEFAULT_CAP: nat := 1

  function CapOf(caps: map<string, nat>, trigger: string): nat {
    if trigger in caps then caps[trigger] else DEFAULT_CAP
  }

  // batch: the entries fetched last, with their triggers, which may have gone since;
  // peaks: the greatest cap each trigger has had; used: ids handed out, never handed out again.
  datatype Shop = Shop(state: State, dispatcher: Dispatcher, batch: map<Id, string>, caps: map<string, nat>,
                       peaks: map<string, nat>, used: set<Id>)

  datatype Move =
    | Fetch(page: set<Id>)                  // some pending entries
    | ReadCap(id: Id)                       // the cap of a fetched entry's trigger
    | Count                                 // the active entries, against the cap that was read
    | Skip                                  // the circuit breaker is open
    | Claim                                 // the compare-and-swap after the check
    | SetCap(trigger: string, cap: int)     // by any thread, at any time
    | Elsewhere(event: Event)               // any other statement, by anyone

  ghost predicate Allowed(s: Shop, m: Move) {
    match m
    case Fetch(page) => s.dispatcher.Looking? && page <= PendingIds(s.state.rows)
    case ReadCap(id) => s.dispatcher.Looking? && id in s.batch
    case Count => s.dispatcher.HasCap?
    case Skip => s.dispatcher.Cleared?
    case Claim => s.dispatcher.Cleared?
    case SetCap(_, _) => true
    case Elsewhere(e) =>
      && (e.Update? ==> !e.to.Dispatching?)
      && (e.Enqueue? ==> e.id !in s.used)
  }

  // The count finds fewer active entries than the cap that was read.
  predicate Clears(s: Shop)
    requires s.dispatcher.HasCap?
  {
    Active(s.state.rows, s.dispatcher.trigger) < s.dispatcher.cap
  }

  ghost function Make(s: Shop, m: Move): Shop
    requires Allowed(s, m)
  {
    match m
    case Fetch(page) => s.(batch := map id | id in page :: s.state.rows[id].trigger)
    case ReadCap(id) => s.(dispatcher := HasCap(id, s.batch[id], CapOf(s.caps, s.batch[id])))
    case Count => s.(dispatcher := if Clears(s) then Cleared(s.dispatcher.id, s.dispatcher.trigger) else Looking)
    case Skip => s.(dispatcher := Looking)
    case Claim => s.(state := Apply(s.state, ClaimOf(s.dispatcher.id)), dispatcher := Looking)
    case SetCap(t, cap) =>
      s.(caps := s.caps[t := Max(1, cap)], peaks := s.peaks[t := Max(CapOf(s.peaks, t), Max(1, cap))])
    case Elsewhere(e) =>
      s.(state := Apply(s.state, e), used := if e.Enqueue? then s.used + {e.id} else s.used)
  }

  // The entries fetched and the one worked on are known, and an entry keeps its trigger.
  ghost predicate Known(s: Shop) {
    && s.state.rows.Keys <= s.used
    && (forall id :: id in s.batch ==> id in s.used && (id in s.state.rows ==> s.state.rows[id].trigger == s.batch[id]))
    && (!s.dispatcher.Looking? ==>
          && s.dispatcher.id in s.used
          && (s.dispatcher.id in s.state.rows ==> s.state.rows[s.dispatcher.id].trigger == s.dispatcher.trigger))
  }

  // The active entries of a trigger, and the one the dispatcher is about to claim.
  function Load(s: Shop, trigger: string): nat {
    Active(s.state.rows, trigger) + if s.dispatcher.Cleared? && s.dispatcher.trigger == trigger then 1 else 0
  }

  ghost predicate Under(s: Shop, bound: map<string, nat>) { forall t :: Load(s, t) <= CapOf(bound, t) }

  ghost predicate Below(caps: map<string, nat>, bound: map<string, nat>) {
    forall t :: CapOf(caps, t) <= CapOf(bound, t)
  }

  // Only a claim raises the number of active entries, and only by one.
  lemma ActiveStep(rows: Rows, rows': Rows, t: string)
    requires forall id :: id in rows' && rows'[id].status.Dispatching? ==>
               id in rows && rows[id].status.Dispatching? && rows[id].trigger == rows'[id].trigger
    ensures Active(rows', t) <= Active(rows, t)
  {
    var a := set id | id in rows && IsActive(rows[id], t);
    var b := set id | id in rows' && IsActive(rows'[id], t);
    SubsetCardinality(b, a);
  }

  lemma ActiveClaim(s: State, id: Id, t: string)
    ensures Active(Apply(s, ClaimOf(id)).rows, t)
         <= Active(s.rows, t) + (if id in s.rows && s.rows[id].trigger == t then 1 else 0)
  {
    if Hits(s, ClaimOf(id)) {
      ActiveAfterUpdate(s, ClaimOf(id), t);
    }
  }

  lemma ElsewhereAddsNone(s: State, e: Event, id: Id)
    requires e.Update? ==> !e.to.Dispatching?
    ensures id in Apply(s, e).rows && Apply(s, e).rows[id].status.Dispatching? ==>
              id in s.rows && s.rows[id].status.Dispatching? && s.rows[id].trigger == Apply(s, e).rows[id].trigger
    ensures id in Apply(s, e).rows && !(e.Enqueue? && e.id == id) ==>
              id in s.rows && s.rows[id].trigger == Apply(s, e).rows[id].trigger
  {
  }

  lemma MoveKeepsKnown(s: Shop, m: Move)
    requires Known(s) && Allowed(s, m)
    ensures Known(Make(s, m))
  {
    match m
    case Claim => ClaimKeepsRows(s.state, s.dispatcher.id);
    case Elsewhere(e) =>
      forall id ensures id in Apply(s.state, e).rows && !(e.Enqueue? && e.id == id) ==>
                          id in s.state.rows && s.state.rows[id].trigger == Apply(s.state, e).rows[id].trigger
      {
        ElsewhereAddsNone(s.state, e, id);
      }
      assert Make(s, m).state.rows.Keys <= Make(s, m).used;
    case _ =>
  }

  lemma ClaimKeepsRows(s: State, id: Id)
    ensures var after := Apply(s, ClaimOf(id)).rows;
            after.Keys == s.rows.Keys && forall x :: x in after ==> after[x].trigger == s.rows[x].trigger
  {
  }

  // Setting a cap and counting aside, what bounds the load keeps bounding it, whatever the caps are.
  lemma MoveKeepsUnder(s: Shop, m: Move, bound: map<string, nat>)
    requires Known(s) && Allowed(s, m) && !m.SetCap? && !m.Count?
    requires Under(s, bound)
    ensures Under(Make(s, m), bound)
  {
    hide Active, CapOf, Apply;
    forall t ensures Load(Make(s, m), t) <= CapOf(bound, t) {
      assert Load(s, t) <= CapOf(bound, t);
      match m
      case Claim => ActiveClaim(s.state, s.dispatcher.id, t);
      case Elsewhere(e) =>
        forall id
          ensures id in Apply(s.state, e).rows && Apply(s.state, e).rows[id].status.Dispatching? ==>
                    id in s.state.rows && s.state.rows[id].status.Dispatching?
                    && s.state.rows[id].trigger == Apply(s.state, e).rows[id].trigger
        {
          ElsewhereAddsNone(s.state, e, id);
        }
        ActiveStep(s.state.rows, Apply(s.state, e).rows, t);
      case _ =>
    }
  }

  // A count keeps the load within a bound exactly when it clears nothing that the bound has no room for.
  lemma CountIffRoom(s: Shop, bound: map<string, nat>)
    requires Allowed(s, Count) && Under(s, bound)
    ensures Under(Make(s, Count), bound) <==>
              (Clears(s) ==> Active(s.state.rows, s.dispatcher.trigger) < CapOf(bound, s.dispatcher.trigger))
  {
    hide Active;
    var s', trigger := Make(s, Count), s.dispatcher.trigger;
    forall t ensures Load(s', t) == Load(s, t) + if Clears(s) && t == trigger then 1 else 0 {}
    if Clears(s) && Active(s.state.rows, trigger) >= CapOf(bound, trigger) {
      assert Load(s', trigger) > CapOf(bound, trigger);
    }
    forall t ensures Load(s, t) <= CapOf(bound, t) {}
  }

  // Setting a cap keeps the load within the caps exactly when the new cap is not below the load.
  lemma SetCapIffRoom(s: Shop, trigger: string, cap: int)
    requires Under(s, s.caps)
    ensures Under(Make(s, SetCap(trigger, cap)), Make(s, SetCap(trigger, cap)).caps) <==>
        Load(s, trigger) <= Max(1, cap)
  {
    hide Active;
    var s' := Make(s, SetCap(trigger, cap));
    forall t ensures Load(s', t) == Load(s, t) {}
    if Load(s, trigger) > Max(1, cap) {
      assert Load(s', trigger) > CapOf(s'.caps, trigger);
    }
  }

  // Two active entries under a cap of two, which is then lowered to one.
  lemma LoweredCapIsExceeded(trigger: string) returns (s: Shop)
    ensures Known(s) && Under(s, s.caps)
    ensures var s' := Make(s, SetCap(trigger, 1)); Active(s'.state.rows, trigger) > CapOf(s'.caps, trigger)
  {
    var e := Entry(trigger, 0, Dispatching, 0, Some(0), None);
    var rows := map["a" := e, "bb" := e];
    assert |"a"| != |"bb"|;
    var caps := map[trigger := 2];
    s := Shop(State(0, rows), Looking, map[], caps, caps, {"a", "bb"});
    assert (set id | id in rows && IsActive(rows[id], trigger)) == {"a", "bb"};
    forall t | t != trigger ensures Active(rows, t) == 0 {
      assert (set id | id in rows && IsActive(rows[id], t)) == {};
    }
  }

  // A run of moves of a new dispatcher thread, from a state in which the load respects the caps.
  ghost predicate IsShopRun(moves: seq<Move>, shops: seq<Shop>) {
    && |shops| == |moves| + 1
    && shops[0].dispatcher.Looking?
    && Known(shops[0]) && Under(shops[0], shops[0].caps) && shops[0].peaks == shops[0].caps
    && (forall i :: 0 <= i < |moves| ==> Allowed(shops[i], moves[i]) && shops[i + 1] == Make(shops[i], moves[i]))
  }

  lemma {:induction false} RunStaysKnown(moves: seq<Move>, shops: seq<Shop>, k: nat)
    requires IsShopRun(moves, shops) && k < |shops|
    ensures Known(shops[k])
  {
    hide Known, Allowed, Make;
    if k > 0 {
      RunStaysKnown(moves, shops, k - 1);
      MoveKeepsKnown(shops[k - 1], moves[k - 1]);
    }
  }

  // A cap is not set below the load of its trigger, and a count that clears an entry finds the active
  // entries below the cap as it is then, not only below the cap that was read.
  ghost predicate Fits(s: Shop, m: Move) {
    && (m.SetCap? ==> Load(s, m.trigger) <= Max(1, m.cap))
    && (m.Count? && s.dispatcher.HasCap? && Clears(s) ==>
          Active(s.state.rows, s.dispatcher.trigger) < CapOf(s.caps, s.dispatcher.trigger))
  }

  ghost predicate UnderItsCaps(s: Shop) { Under(s, s.caps) }

  // With one dispatcher the load stays within the caps up to state k, whatever the other callers
  // do, exactly when every cap change and every count on the way fits.
  lemma {:induction false} CapHoldsIff(moves: seq<Move>, shops: seq<Shop>, k: nat)
    requires IsShopRun(moves, shops) && k < |shops|
    ensures (forall i :: 0 <= i <= k ==> UnderItsCaps(shops[i])) <==>
            (forall i :: 0 <= i < k ==> Fits(shops[i], moves[i]))
  {
    hide Known, UnderItsCaps, Fits, Allowed, Make;
    if k == 0 {
      StartsUnder(shops[0]);
    } else {
      CapHoldsIff(moves, shops, k - 1);
      RunStaysKnown(moves, shops, k - 1);
      assert shops[k] == Make(shops[k - 1], moves[k - 1]);
      if UnderItsCaps(shops[k - 1]) {
        StepWithinCaps(shops[k - 1], moves[k - 1]);
      }
    }
  }

  lemma StartsUnder(s: Shop)
    requires Under(s, s.caps)
    ensures UnderItsCaps(s)
  {
  }

  lemma StepWithinCaps(s: Shop, m: Move)
    requires Known(s) && Allowed(s, m) && UnderItsCaps(s)
    ensures UnderItsCaps(Make(s, m)) <==> Fits(s, m)
  {
    hide Known, Under, Load, Active, Clears, CapOf;
    if m.SetCap? {
      SetCapIffRoom(s, m.trigger, m.cap);
    } else if m.Count? {
      CountIffRoom(s, s.caps);
    } else {
      MoveKeepsUnder(s, m, s.caps);
    }
  }

  // The cap that was read is within a bound.
  ghost predicate ReadWithin(s: Shop, bound: map<string, nat>) {
    s.dispatcher.HasCap? ==> s.dispatcher.cap <= CapOf(bound, s.dispatcher.trigger)
  }

  // In every state of every run the active entries of a trigger number at most the greatest cap it
  // has had, even when caps are lowered while entries are active or between the two reads of a check.
  lemma {:induction false} NeverAbovePeak(moves: seq<Move>, shops: seq<Shop>, k: nat)
    requires IsShopRun(moves, shops) && k < |shops|
    ensures Under(shops[k], shops[k].peaks) && Below(shops[k].caps, shops[k].peaks)
    ensures ReadWithin(shops[k], shops[k].peaks)
    ensures forall t :: Active(shops[k].state.rows, t) <= CapOf(shops[k].peaks, t)
  {
    if k > 0 {
      hide Known, Active, Apply;
      NeverAbovePeak(moves, shops, k - 1);
      RunStaysKnown(moves, shops, k - 1);
      StepBelowPeak(shops[k - 1], moves[k - 1]);
    }
    hide *;
    LoadCountsActive(shops[k]);
  }

  lemma StepBelowPeak(s: Shop, m: Move)
    requires Known(s) && Allowed(s, m) && Under(s, s.peaks) && Below(s.caps, s.peaks) && ReadWithin(s, s.peaks)
    ensures Under(Make(s, m), Make(s, m).peaks) && Below(Make(s, m).caps, Make(s, m).peaks)
    ensures ReadWithin(Make(s, m), Make(s, m).peaks)
  {
    hide Known, Active;
    if m.SetCap? {
      forall t ensures Load(Make(s, m), t) == Load(s, t) <= CapOf(s.peaks, t) <= CapOf(Make(s, m).peaks, t) {}
    } else if m.Count? {
      hide Under, Below;
      CountIffRoom(s, s.peaks);
    } else {
      hide Under;
      MoveKeepsUnder(s, m, s.peaks);
    }
  }

  // A cap change that does not lower the cap.
  predicate Raises(s: Shop, m: Move) { m.SetCap? ==> CapOf(s.caps, m.trigger) <= Max(1, m.cap) }

  // As long as no cap is lowered, the load and so the active entries stay within the caps.
  lemma {:induction false} RaisingIsSafe(moves: seq<Move>, shops: seq<Shop>, k: nat)
    requires IsShopRun(moves, shops) && k < |shops|
    requires forall i :: 0 <= i < k ==> Raises(shops[i], moves[i])
    ensures UnderItsCaps(shops[k]) && ReadWithin(shops[k], shops[k].caps)
    ensures forall t :: Active(shops[k].state.rows, t) <= if t in shops[k].caps then shops[k].caps[t] else 1
  {
    hide Known, UnderItsCaps, Raises, Allowed, Make;
    if k == 0 {
      StartsUnder(shops[0]);
    } else {
      RaisingIsSafe(moves, shops, k - 1);
      RunStaysKnown(moves, shops, k - 1);
      assert shops[k] == Make(shops[k - 1], moves[k - 1]);
      RaisingStep(shops[k - 1], moves[k - 1]);
    }
    hide *;
    CapsBoundActive(shops[k]);
  }

  lemma CapsBoundActive(s: Shop)
    requires UnderItsCaps(s)
    ensures forall t :: Active(s.state.rows, t) <= if t in s.caps then s.caps[t] else 1
  {
    hide Active;
    forall t ensures Active(s.state.rows, t) <= if t in s.caps then s.caps[t] else 1 {
      assert Load(s, t) <= CapOf(s.caps, t);
    }
  }

  lemma RaisingStep(s: Shop, m: Move)
    requires Known(s) && Allowed(s, m) && Raises(s, m)
    requires UnderItsCaps(s) && ReadWithin(s, s.caps)
    ensures UnderItsCaps(Make(s, m)) && ReadWithin(Make(s, m), Make(s, m).caps)
  {
    hide Known, Active;
    StepWithinCaps(s, m);
    if m.SetCap? {
      assert Load(s, m.trigger) <= CapOf(s.caps, m.trigger);
    }
  }

  // One active entry and one pending under a cap of two. The dispatcher reads the cap, another thread
  // lowers it to one, which is no less than the load, and the dispatcher still counts and claims.
  lemma LateCountExceedsCap(trigger: string) returns (moves: seq<Move>, shops: seq<Shop>)
    ensures IsShopRun(moves, shops) && moves == [ReadCap("bb"), SetCap(trigger, 1), Count, Claim]
    ensures CapOf(shops[0].caps, trigger) == 2 && Load(shops[1], trigger) == 1 && UnderItsCaps(shops[2])
    ensures Active(shops[4].state.rows, trigger) == 2 && CapOf(shops[4].caps, trigger) == 1
  {
    var s0 := OneActiveOnePending(trigger);
    OneActive(trigger);
    moves := [ReadCap("bb"), SetCap(trigger, 1), Count, Claim];
    var s1 := Make(s0, moves[0]);
    var s2 := Make(s1, moves[1]);
    var s3 := Make(s2, moves[2]);
    var s4 := Make(s3, moves[3]);
    shops := [s0, s1, s2, s3, s4];
    ActiveAfterUpdate(s3.state, ClaimOf("bb"), trigger);
    hide Active, Known;
    SetCapIffRoom(s1, trigger, 1);
    forall i | 0 <= i < 4 ensures Allowed(shops[i], moves[i]) && shops[i + 1] == Make(shops[i], moves[i]) {
      assert i == 0 || i == 1 || i == 2 || i == 3;
    }
  }

  function OneActiveOnePending(trigger: string): Shop {
    var rows := map["a" := Entry(trigger, 0, Dispatching, 0, Some(0), None),
                    "bb" := Entry(trigger, 0, Pending, 0, None, None)];
    var caps := map[trigger := 2];
    Shop(State(0, rows), Looking, map["bb" := trigger], caps, caps, {"a", "bb"})
  }

  lemma OneActive(trigger: string)
    ensures var s := OneActiveOnePending(trigger);
            && s.state.rows.Keys == {"a", "bb"} && s.state.rows["bb"] == Entry(trigger, 0, Pending, 0, None, None)
            && Known(s) && Under(s, s.caps)
            && forall t :: Active(s.state.rows, t) == if t == trigger then 1 else 0
  {
    var s := OneActiveOnePending(trigger);
    assert |"a"| != |"bb"|;
    assert s.state.rows.Keys == {"a", "bb"};
    forall t ensures Active(s.state.rows, t) == if t == trigger then 1 else 0 {
      assert (set id | id in s.state.rows && IsActive(s.state.rows[id], t)) == if t == trigger then {"a"} else {};
    }
  }

  lemma LoadCountsActive(s: Shop)
    requires Under(s, s.peaks)
    ensures forall t :: Active(s.state.rows, t) <= CapOf(s.peaks, t)
  {
    hide Active, CapOf;
    forall t ensures Active(s.state.rows, t) <= CapOf(s.peaks, t) {
      assert Load(s, t) <= CapOf(s.peaks, t);
    }
  }

  // ------------------------------------------------------------ dispatch order

  // ORDER BY priority DESC, created_at ASC.
  predicate Precedes(a: Entry, b: Entry) {
    a.priority > b.priority || (a.priority == b.priority && a.created < b.created)
  }

  function PendingIds(rows: Rows): set<Id> { set id | id in rows && rows[id].status.Pending? }

  ghost predicate NotBefore(rows: Rows, a: Id, b: Id) { a in rows && b in rows && !Precedes(rows[a], rows[b]) }

  // Nothing in `rest` comes before entry x.
  ghost predicate First(rows: Rows, x: Id, rest: set<Id>) {
    x in rows && forall y :: y in rest ==> NotBefore(rows, y, x)
  }

  method PickFirst(rows: Rows, candidates: set<Id>) returns (best: Id)
    requires candidates != {} && candidates <= rows.Keys
    ensures best in candidates && First(rows, best, candidates)
  {
    best :| best in candidates;
    var todo := candidates - {best};
    while todo != {}
      invariant todo <= candidates && best in candidates && best !in todo
      invariant First(rows, best, candidates - todo)
      decreases todo
    {
      var x :| x in todo;
      if Precedes(rows[x], rows[best]) {
        FirstMoves(rows, x, best, candidates - todo);
        best := x;
      }
      todo := todo - {x};
    }
  }

  lemma FirstMoves(rows: Rows, x: Id, best: Id, seen: set<Id>)
    requires x in rows && First(rows, best, seen) && Precedes(rows[x], rows[best])
    ensures First(rows, x, seen + {x})
  {
    forall y | y in seen ensures NotBefore(rows, y, x) {
      assert NotBefore(rows, y, best);
    }
  }

  // The pending entries are cut into `page`, in order, and `rest`, none of which comes before any of the page.
  ghost predicate IsFront(rows: Rows, page: seq<Id>, rest: set<Id>) {
    && Distinct(page)
    && Elems(page) !! rest
    && Elems(page) + rest == PendingIds(rows)
    && (forall i :: 0 <= i < |page| ==> First(rows, page[i], rest))
    && (forall i, j :: 0 <= i < j < |page| ==> NotBefore(rows, page[j], page[i]))
  }

  lemma FrontStarts(rows: Rows)
    ensures IsFront(rows, [], PendingIds(rows))
  {
  }

  lemma FrontIsPending(rows: Rows, page: seq<Id>, rest: set<Id>)
    requires IsFront(rows, page, rest)
    ensures rest <= PendingIds(rows) <= rows.Keys
  {
  }

  lemma FrontGrows(rows: Rows, page: seq<Id>, rest: set<Id>, x: Id)
    requires IsFront(rows, page, rest) && x in rest && First(rows, x, rest)
    ensures IsFront(rows, page + [x], rest - {x})
  {
    hide NotBefore, PendingIds;
    assert x !in Elems(page);
    assert Elems(page + [x]) == Elems(page) + {x};
  }

  // Higher priority first, older first among equals, both within the page and against what is left out.
  lemma FrontOrder(rows: Rows, page: seq<Id>, rest: set<Id>)
    requires IsFront(rows, page, rest)
    ensures Distinct(page) && forall id :: id in page ==> id in rows && rows[id].status == Pending
    ensures forall i, j :: 0 <= i < j < |page| ==>
              || rows[page[i]].priority > rows[page[j]].priority
              || (rows[page[i]].priority == rows[page[j]].priority && rows[page[i]].created <= rows[page[j]].created)
    ensures forall i, y :: 0 <= i < |page| && y in rows && rows[y].status == Pending && y !in page ==>
              || rows[page[i]].priority > rows[y].priority
              || (rows[page[i]].priority == rows[y].priority && rows[page[i]].created <= rows[y].created)
  {
    forall id | id in page ensures id in rows && rows[id].status == Pending {
      assert id in Elems(page) + rest;
    }
    forall i, y | 0 <= i < |page| && y in rows && rows[y].status == Pending && y !in page
      ensures NotBefore(rows, y, page[i])
    {
      assert y in Elems(page) + rest;
    }
    forall i, j | 0 <= i < j < |page| ensures NotBefore(rows, page[j], page[i]) {
      assert page[i] in rows;
    }
  }

  lemma PendingMeans(rows: Rows)
    ensures PendingIds(rows) == set id | id in rows && rows[id].status == Pending
  {
  }

  lemma CleanupCounts(rows: Rows, hours: int, now: int)
    ensures var removed := set id | id in rows && Expired(rows[id], hours, now);
            |rows| == |Apply(State(now, rows), Cleanup(hours)).rows| + |removed|
  {
    var removed := set id | id in rows && Expired(rows[id], hours, now);
    var kept := set id | id in rows && !Expired(rows[id], hours, now);
    assert rows.Keys == kept + removed;
    assert Apply(State(now, rows), Cleanup(hours)).rows.Keys == kept;
  }

  class Queue {
    var rows: Rows

    constructor ()
      ensures rows == map[]
    {
      rows := map[];
    }

    // The generated id is not checked beforehand: a clash raises and nothing is stored.
    method EnqueueExecution(id: Id, trigger: string, priority: int, now: int) returns (r: Option<Id>)
      modifies this
      ensures State(now, rows) == Apply(State(now, old(rows)), Enqueue(id, trigger, priority))
      ensures rows == if id in old(rows) then old(rows)
                      else old(rows)[id := Entry(trigger, priority, Pending, now, None, None)]
      ensures r == if id in old(rows) then None else Some(id)
    {
      if id in rows {
        return None;
      }
      rows := rows[id := Entry(trigger, priority, Pending, now, None, None)];
      r := Some(id);
    }

    // The first `limit` pending entries in dispatch order; a negative limit is none.
    method GetPendingEntries(limit: int) returns (page: seq<Id>)
      ensures var n := |set id | id in rows && rows[id].status == Pending|;
              |page| == if 0 <= limit <= n then limit else n
      ensures exists rest :: IsFront(rows, page, rest)
      ensures Distinct(page) && forall id :: id in page ==> id in rows && rows[id].status == Pending
      ensures forall i, j :: 0 <= i < j < |page| ==>
                || rows[page[i]].priority > rows[page[j]].priority
                || (rows[page[i]].priority == rows[page[j]].priority && rows[page[i]].created <= rows[page[j]].created)
      ensures forall i, y :: 0 <= i < |page| && y in rows && rows[y].status == Pending && y !in page ==>
                || rows[page[i]].priority > rows[y].priority
                || (rows[page[i]].priority == rows[y].priority && rows[page[i]].created <= rows[y].created)
    {
      hide IsFront, First, PendingIds, Distinct;
      page := [];
      var rest := PendingIds(rows);
      FrontStarts(rows);
      while (limit < 0 || |page| < limit) && rest != {}
        invariant IsFront(rows, page, rest)
        invariant |page| + |rest| == |PendingIds(rows)| && (limit < 0 || |page| <= limit)
        decreases rest
      {
        FrontIsPending(rows, page, rest);
        var x := PickFirst(rows, rest);
        FrontGrows(rows, page, rest, x);
        page := page + [x];
        rest := rest - {x};
      }
      FrontOrder(rows, page, rest);
      assert PendingIds(rows) == (set id | id in rows && rows[id].status == Pending) by {
        hide *;
        PendingMeans(rows);
      }
    }

    method UpdateEntryStatus(id: Id, to: Status, expected: Option<Status>, now: int) returns (updated: bool)
      modifies this
      ensures updated == Hits(State(now, old(rows)), Update(id, to, expected))
      ensures State(now, rows) == Apply(State(now, old(rows)), Update(id, to, expected))
      ensures updated <==> id in old(rows) && (expected in {None, Some(Other("")), Some(old(rows)[id].status)})
      ensures !updated ==> rows == old(rows)
      ensures updated ==> rows == old(rows)[id := Entry(
        old(rows)[id].trigger, old(rows)[id].priority, to, old(rows)[id].created,
        if to == Dispatching then Some(now) else old(rows)[id].dispatchedAt,
        if to in {Completed, Failed, Cancelled} then Some(now) else old(rows)[id].completedAt)]
    {
      updated := false;
      if id in rows {
        if Expects(expected) {
          updated := rows[id].status == expected.value;
        } else {
          updated := true;
        }
        if updated {
          rows := rows[id := WithStatus(rows[id], to, now)];
        }
      }
    }

    method CancelPendingEntries(only: Option<string>, now: int) returns (count: nat)
      modifies this
      ensures State(now, rows) == Apply(State(now, old(rows)), CancelPending(only))
      ensures count == |set id | id in old(rows) && old(rows)[id] != rows[id]|
      ensures rows == map id | id in old(rows) ::
        if old(rows)[id].status == Pending && only in {None, Some(""), Some(old(rows)[id].trigger)}
        then old(rows)[id].(status := Cancelled, completedAt := Some(now)) else old(rows)[id]
    {
      ghost var before := rows;
      var found := set id | id in rows && ToCancel(rows[id], only);
      count := |found|;
      rows := map id | id in rows ::
                if ToCancel(rows[id], only) then WithStatus(rows[id], Cancelled, now) else rows[id];
      assert found == set id | id in before && before[id] != rows[id];
    }

    method CleanupCompletedEntries(hours: int, now: int) returns (count: nat)
      modifies this
      ensures State(now, rows) == Apply(State(now, old(rows)), Cleanup(hours))
      ensures |old(rows)| == |rows| + count
      ensures rows == map id | id in old(rows) &&
        !(old(rows)[id].status in {Completed, Failed, Cancelled} && old(rows)[id].completedAt != None
          && hours >= 0 && old(rows)[id].completedAt.value < now - 3600 * hours) :: old(rows)[id]
    {
      CleanupCounts(rows, hours, now);
      var removed := set id | id in rows && Expired(rows[id], hours, now);
      count := |removed|;
      rows := map id | id in rows && !Expired(rows[id], hours, now) :: rows[id];
    }

    method ResetStaleDispatching() returns (count: nat)
      modifies this
      ensures forall now :: State(now, rows) == Apply(State(now, old(rows)), ResetStale)
      ensures count == |set id | id in old(rows) && old(rows)[id].status.Dispatching?|
      ensures rows == map id | id in old(rows) ::
        if old(rows)[id].status == Dispatching then old(rows)[id].(status := Pending, dispatchedAt := None)
        else old(rows)[id]
    {
      count := |set id | id in rows && rows[id].status.Dispatching?|;
      rows := map id | id in rows :: Reset(rows[id]);
    }

    method CountActiveForTrigger(trigger: string) returns (n: nat)
      ensures n == Active(rows, trigger)
      ensures n == |set id | id in rows && rows[id].trigger == trigger && rows[id].status == Dispatching|
    {
      ghost var counted: set<Id> := {};
      var todo := rows.Keys;
      n := 0;
      while todo != {}
        invariant todo <= rows.Keys
        invariant counted == set id | id in rows && id !in todo && IsActive(rows[id], trigger)
        invariant n == |counted|
        decreases todo
      {
        var id :| id in todo;
        todo := todo - {id};
        if IsActive(rows[id], trigger) {
          counted := counted + {id};
          n := n + 1;
        }
      }
      assert counted == set id | id in rows && IsActive(rows[id], trigger);
      assert counted == set id | id in rows && rows[id].trigger == trigger && rows[id].status == Dispatching;
    }
  }

  // After a reset nothing is being dispatched and every live entry can be claimed again.
  lemma ResetFreesAll(s: State, id: Id)
    requires id in s.rows && !Terminal(s.rows[id].status) && !s.rows[id].status.Other?
    ensures Hits(Apply(s, ResetStale), ClaimOf(id))
    ensures forall t :: Active(Apply(s, ResetStale).rows, t) == 0
  {
    var rows := Apply(s, ResetStale).rows;
    forall t ensures Active(rows, t) == 0 {
      assert (set x | x in rows && rows[x].trigger == t && rows[x].status.Dispatching?) == {};
    }
  }
}
