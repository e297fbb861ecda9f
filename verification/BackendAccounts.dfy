// Accounts of a backend: create-or-replace, update, delete (backend/app/db/backends.py).
module BackendAccounts {
  import opened Prelude
  import Text

  // stats stands for the columns that none of these operations writes.
  datatype Account = Account(id: nat, backend: string, name: string, email: Option<string>, path: Option<string>,
                             keyEnv: Option<string>, isDefault: int, plan: Option<string>, usage: Option<string>,
                             stats: int)

  // Arguments of create_backend_account; usage is the JSON text of a nonempty dict.
  datatype Args = Args(backend: string, name: string, email: Option<string>, path: Option<string>,
                       keyEnv: Option<string>, isDefault: Option<int>, plan: Option<string>, usage: Option<string>)

  // Optional arguments of update_backend_account.
  datatype Patch = Patch(name: Option<string>, email: Option<string>, path: Option<string>, keyEnv: Option<string>,
                         isDefault: Option<int>, plan: Option<string>, usage: Option<string>)

  predicate IsTrue(n: Option<int>) { n.Some? && n.value != 0 }

  // account_name.replace(" ", "").lower()
  function Normalized(name: string): string { Text.Lower(Text.RemoveSpaces(name)) }

  // The characters other than spaces, in order and in lower case.
  lemma NormalizedMeans(name: string) returns (at: seq<nat>)
    ensures |at| == |Normalized(name)|
    ensures forall k :: 0 <= k < |at| ==> at[k] < |name| && Text.IsLowerOf(Normalized(name)[k], name[at[k]])
    ensures forall k, l :: 0 <= k < l < |at| ==> at[k] < at[l]
    ensures forall i: nat :: i < |name| ==> (i in at <==> name[i] != ' ')
  {
    at := Text.RemoveSpacesKeeps(name);
    forall k | 0 <= k < |at| ensures Text.IsLowerOf(Normalized(name)[k], name[at[k]]) {
      Text.LowerIsLower(name[at[k]]);
    }
  }

  predicate SamePath(a: Option<string>, b: Option<string>) { a.Some? && a.value != "" && b == a }

  // The row counts as the same account.
  predicate Matches(row: Account, a: Args) {
    row.backend == a.backend && (Normalized(row.name) == Normalized(a.name) || SamePath(a.path, row.path))
  }

  ghost predicate Valid(rows: seq<Account>, nextId: nat) {
    && (forall i :: 0 <= i < |rows| ==> rows[i].id < nextId)
    && (forall i, j :: 0 <= i < j < |rows| ==> rows[i].id != rows[j].id)
  }

  ghost predicate OneDefault(rows: seq<Account>) {
    forall i, j :: 0 <= i < j < |rows| && rows[i].backend == rows[j].backend ==>
      rows[i].isDefault == 0 || rows[j].isDefault == 0
  }

  // UPDATE backend_accounts SET is_default = 0 WHERE backend_id = ?, if the flag is set.
  function Cleared(rows: seq<Account>, backend: string, flag: bool): (r: seq<Account>)
    ensures |r| == |rows|
  {
    seq(|rows|, i requires 0 <= i < |rows| =>
      if flag && rows[i].backend == backend then rows[i].(isDefault := 0) else rows[i])
  }

  function FlagOf(isDefault: Option<int>): int { if IsTrue(isDefault) then isDefault.value else 0 }

  function Overwritten(row: Account, a: Args): Account {
    row.(name := a.name, email := a.email, path := a.path, keyEnv := a.keyEnv,
         isDefault := FlagOf(a.isDefault), plan := a.plan, usage := a.usage)
  }

  function NewAccount(id: nat, a: Args): Account {
    Account(id, a.backend, a.name, a.email, a.path, a.keyEnv, FlagOf(a.isDefault), a.plan, a.usage, 0)
  }

  // Row i is the first one that counts as the same account; |rows| if there is none.
  ghost predicate IsFirstMatch(rows: seq<Account>, a: Args, i: nat) {
    && i <= |rows|
    && (forall j :: 0 <= j < i ==> !Matches(rows[j], a))
    && (i < |rows| ==> Matches(rows[i], a))
  }

  // The table after a create whose first match is row i.
  function Created(rows: seq<Account>, nextId: nat, a: Args, i: nat): seq<Account>
    requires i <= |rows|
  {
    var base := Cleared(rows, a.backend, IsTrue(a.isDefault));
    if i < |rows| then base[i := Overwritten(base[i], a)] else base + [NewAccount(nextId, a)]
  }

  function IdAfter(rows: seq<Account>, nextId: nat, i: nat): nat
    requires i <= |rows|
  {
    if i < |rows| then rows[i].id else nextId
  }

  // The row written matches, and no earlier one does: repeating the call finds it again.
  lemma FirstMatchStays(rows: seq<Account>, nextId: nat, a: Args, i: nat)
    requires IsFirstMatch(rows, a, i)
    ensures IsFirstMatch(Created(rows, nextId, a, i), a, i)
  {
    hide Normalized;
    var r := Created(rows, nextId, a, i);
    forall j | 0 <= j < i ensures !Matches(r[j], a) {
      assert r[j] == rows[j] || r[j] == rows[j].(isDefault := 0);
    }
  }

  // Creating twice is creating once: the second call returns the same id and changes nothing.
  lemma CreateIsIdempotent(rows: seq<Account>, nextId: nat, laterId: nat, a: Args, i: nat, j: nat)
    requires IsFirstMatch(rows, a, i)
    requires IsFirstMatch(Created(rows, nextId, a, i), a, j)
    ensures Created(Created(rows, nextId, a, i), laterId, a, j) == Created(rows, nextId, a, i)
    ensures IdAfter(Created(rows, nextId, a, i), laterId, j) == IdAfter(rows, nextId, i)
  {
    hide Normalized;
    FirstMatchStays(rows, nextId, a, i);
    assert j == i;
  }

  // Creating with the default flag makes the account the one default of its backend.
  lemma CreateSetsDefault(rows: seq<Account>, nextId: nat, a: Args, i: nat)
    requires Valid(rows, nextId) && IsFirstMatch(rows, a, i) && IsTrue(a.isDefault)
    ensures var r := Created(rows, nextId, a, i);
            forall j :: 0 <= j < |r| && r[j].backend == a.backend ==>
              (r[j].isDefault != 0 <==> r[j].id == IdAfter(rows, nextId, i))
  {
    hide Normalized;
  }

  lemma CreateKeeps(rows: seq<Account>, nextId: nat, a: Args, i: nat)
    requires Valid(rows, nextId) && OneDefault(rows) && IsFirstMatch(rows, a, i)
    ensures Valid(Created(rows, nextId, a, i), if i < |rows| then nextId else nextId + 1)
    ensures OneDefault(Created(rows, nextId, a, i))
  {
    hide Normalized;
  }

  // ------------------------------------------------------------ update

  predicate Empty(p: Patch) {
    p.name.None? && p.email.None? && p.path.None? && p.keyEnv.None? && p.isDefault.None? && p.plan.None? &&
    p.usage.None?
  }

  function Or(a: Option<string>, b: Option<string>): Option<string> { if a.Some? then a else b }

  function Patched(row: Account, p: Patch): Account {
    row.(name := if p.name.Some? then p.name.value else row.name,
         email := Or(p.email, row.email), path := Or(p.path, row.path), keyEnv := Or(p.keyEnv, row.keyEnv),
         isDefault := if p.isDefault.Some? then p.isDefault.value else row.isDefault,
         plan := Or(p.plan, row.plan), usage := Or(p.usage, row.usage))
  }

  // The table after updating account id of a backend.
  function AfterUpdate(rows: seq<Account>, id: nat, backend: string, p: Patch): (r: seq<Account>)
    ensures |r| == |rows|
  {
    seq(|rows|, i requires 0 <= i < |rows| =>
      if rows[i].id == id then Patched(rows[i], p)
      else if IsTrue(p.isDefault) && rows[i].backend == backend then rows[i].(isDefault := 0)
      else rows[i])
  }

  ghost predicate Has(rows: seq<Account>, id: nat, backend: string) {
    exists i :: 0 <= i < |rows| && rows[i].id == id && rows[i].backend == backend
  }

  lemma UpdateKeeps(rows: seq<Account>, nextId: nat, id: nat, backend: string, p: Patch)
    requires Valid(rows, nextId) && OneDefault(rows) && Has(rows, id, backend)
    ensures Valid(AfterUpdate(rows, id, backend, p), nextId)
    ensures OneDefault(AfterUpdate(rows, id, backend, p))
  {
    var r := AfterUpdate(rows, id, backend, p);
    forall i | 0 <= i < |rows|
      ensures r[i].id == rows[i].id && r[i].backend == rows[i].backend
      ensures rows[i].id != id ==> r[i].isDefault == 0 || r[i].isDefault == rows[i].isDefault
    {
    }
    var at :| 0 <= at < |rows| && rows[at].id == id && rows[at].backend == backend;
    forall i, j | 0 <= i < j < |r| && r[i].backend == r[j].backend
      ensures r[i].isDefault == 0 || r[j].isDefault == 0
    {
      assert rows[i].isDefault == 0 || rows[j].isDefault == 0;
    }
  }

  // ------------------------------------------------------------ delete

  function Without(rows: seq<Account>, id: nat, backend: string, n: nat): seq<Account>
    requires n <= |rows|
  {
    if n == 0 then []
    else Without(rows, id, backend, n - 1) +
         if rows[n - 1].id == id && rows[n - 1].backend == backend then [] else [rows[n - 1]]
  }

  // The rows kept are the others, in order.
  lemma {:induction false} WithoutIndex(rows: seq<Account>, id: nat, backend: string, n: nat) returns (at: seq<nat>)
    requires n <= |rows|
    ensures |at| == |Without(rows, id, backend, n)|
    ensures forall p :: 0 <= p < |at| ==> at[p] < n && Without(rows, id, backend, n)[p] == rows[at[p]]
    ensures forall p, q :: 0 <= p < q < |at| ==> at[p] < at[q]
    ensures forall i: nat :: i < n ==> (i in at <==> !(rows[i].id == id && rows[i].backend == backend))
  {
    at := [];
    if n > 0 {
      at := WithoutIndex(rows, id, backend, n - 1);
      if !(rows[n - 1].id == id && rows[n - 1].backend == backend) {
        at := at + [n - 1];
      }
    }
  }

  lemma DeleteKeeps(rows: seq<Account>, nextId: nat, id: nat, backend: string)
    requires Valid(rows, nextId) && OneDefault(rows)
    ensures Valid(Without(rows, id, backend, |rows|), nextId)
    ensures OneDefault(Without(rows, id, backend, |rows|))
    ensures !Has(Without(rows, id, backend, |rows|), id, backend)
  {
    hide Without;
    var r := Without(rows, id, backend, |rows|);
    var at := WithoutIndex(rows, id, backend, |rows|);
    forall p | 0 <= p < |r| ensures !(r[p].id == id && r[p].backend == backend) {
      assert at[p] in at;
    }
  }

  lemma {:induction false} DeleteCounts(rows: seq<Account>, id: nat, backend: string, n: nat)
    requires n <= |rows|
    ensures |Without(rows, id, backend, n)| <= n
    ensures |Without(rows, id, backend, n)| < n <==>
              exists i :: 0 <= i < n && rows[i].id == id && rows[i].backend == backend
  {
    if n > 0 {
      DeleteCounts(rows, id, backend, n - 1);
    }
  }

  class Accounts {
    // Rows of backend_accounts in rowid order, the next AUTOINCREMENT id, and the ids in ai_backends.
    var rows: seq<Account>
    var nextId: nat
    var backends: set<string>

    ghost predicate Invariant()
      reads this
    {
      Valid(rows, nextId) && OneDefault(rows)
    }

    constructor (known: set<string>)
      ensures Invariant() && rows == [] && backends == known
    {
      rows, nextId, backends := [], 1, known;
    }

    // UPDATE ... WHERE id = ?
    method OverwriteById(id: nat, a: Args)
      modifies `rows
      ensures |rows| == |old(rows)|
      ensures forall j :: 0 <= j < |rows| ==>
                rows[j] == if old(rows)[j].id == id then Overwritten(old(rows)[j], a) else old(rows)[j]
    {
      rows := seq(|rows|, j requires 0 <= j < |rows| reads this =>
        if rows[j].id == id then Overwritten(rows[j], a) else rows[j]);
    }

    // None when the foreign key of a new row fails: the exception leaves everything as it was.
    method CreateBackendAccount(a: Args) returns (id: Option<nat>, ghost first: nat)
      requires Invariant()
      modifies `rows, `nextId
      ensures Invariant()
      ensures IsFirstMatch(old(rows), a, first)
      ensures id.Some? <==> first < |old(rows)| || a.backend in backends
      ensures id.Some? ==> rows == Created(old(rows), old(nextId), a, first)
      ensures id.Some? ==> id.value == IdAfter(old(rows), old(nextId), first)
      ensures id.Some? ==> nextId == old(nextId) + if first < |old(rows)| then 0 else 1
      ensures id.None? ==> rows == old(rows) && nextId == old(nextId)
      ensures forall j :: 0 <= j < |old(rows)| && j <= first ==>
                (j == first <==>
                  && old(rows)[j].backend == a.backend
                  && (|| Normalized(old(rows)[j].name) == Normalized(a.name)
                      || (old(rows)[j].path == a.path && a.path !in {None, Some("")})))
      ensures id.Some? ==>
                && |rows| == Max(|old(rows)|, first + 1)
                && rows[first].id == id.value && rows[first].backend == a.backend
                && rows[first] == Account(rows[first].id, rows[first].backend, a.name, a.email, a.path, a.keyEnv,
                                          if a.isDefault.Some? then a.isDefault.value else 0, a.plan, a.usage,
                                          if first < |old(rows)| then old(rows)[first].stats else 0)
                && (first < |old(rows)| ==> rows[first].id == old(rows)[first].id)
      ensures id.Some? ==> forall j :: 0 <= j < |old(rows)| && j != first ==>
                rows[j] == if a.isDefault in {None, Some(0)} || old(rows)[j].backend != a.backend then old(rows)[j]
                           else old(rows)[j].(isDefault := 0)
    {
      ghost var was := rows;
      hide Normalized;
      var existing: Option<nat> := None;
      var i := 0;
      while i < |rows| && existing.None?
        invariant i <= |rows| && rows == was
        invariant existing.None? ==> forall j :: 0 <= j < i ==> !Matches(rows[j], a)
        invariant existing.Some? ==> i > 0 && IsFirstMatch(rows, a, i - 1) && existing.value == rows[i - 1].id
      {
        if Matches(rows[i], a) {
          existing := Some(rows[i].id);
        }
        i := i + 1;
      }
      first := if existing.Some? then i - 1 else i;
      CreateKeeps(was, nextId, a, first);
      if existing.None? && a.backend !in backends {
        return None, first;
      }
      rows := Cleared(rows, a.backend, IsTrue(a.isDefault));
      if existing.Some? {
        OverwriteById(existing.value, a);
        assert rows == Created(was, nextId, a, first);
        return existing, first;
      }
      rows := rows + [NewAccount(nextId, a)];
      id := Some(nextId);
      nextId := nextId + 1;
    }

    method UpdateBackendAccount(id: nat, backend: string, p: Patch) returns (found: bool)
      requires Invariant()
      modifies `rows
      ensures Invariant()
      ensures found <==> Has(old(rows), id, backend)
      ensures found ==> rows == AfterUpdate(old(rows), id, backend, p)
      ensures found ==> |rows| == |old(rows)| && forall j :: 0 <= j < |rows| ==>
                var row := old(rows)[j];
                rows[j] == if row.id == id then
                             Account(id, backend, if p.name.Some? then p.name.value else row.name,
                                     if p.email.Some? then p.email else row.email,
                                     if p.path.Some? then p.path else row.path,
                                     if p.keyEnv.Some? then p.keyEnv else row.keyEnv,
                                     if p.isDefault.Some? then p.isDefault.value else row.isDefault,
                                     if p.plan.Some? then p.plan else row.plan,
                                     if p.usage.Some? then p.usage else row.usage, row.stats)
                           else if p.isDefault in {None, Some(0)} || row.backend != backend then row
                           else row.(isDefault := 0)
      ensures !found ==> rows == old(rows)
    {
      ghost var was := rows;
      found := exists i :: 0 <= i < |rows| && rows[i].id == id && rows[i].backend == backend;
      if !found {
        return;
      }
      UpdateKeeps(rows, nextId, id, backend, p);
      if Empty(p) {
        assert AfterUpdate(rows, id, backend, p) == rows;
        return;
      }
      rows := Cleared(rows, backend, IsTrue(p.isDefault));
      rows := seq(|rows|, j requires 0 <= j < |rows| reads this =>
        if rows[j].id == id then Patched(rows[j], p) else rows[j]);
      assert rows == AfterUpdate(was, id, backend, p);
    }

    method DeleteBackendAccount(id: nat, backend: string) returns (deleted: bool)
      requires Invariant()
      modifies `rows
      ensures Invariant()
      ensures deleted <==> Has(old(rows), id, backend)
      ensures rows == Without(old(rows), id, backend, |old(rows)|)
    {
      DeleteKeeps(rows, nextId, id, backend);
      DeleteCounts(rows, id, backend, |rows|);
      var after := Without(rows, id, backend, |rows|);
      deleted := |after| < |rows|;
      rows := after;
    }
  }
}
