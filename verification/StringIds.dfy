// The conversion from integer to string bot ids (backend/app/db/migrations.py, _migrate_to_string_ids).
//
// DROP TABLE and CREATE TABLE run before any transaction is open and are durable at once; the
// inserts that follow are one transaction.
module StringIds {
  import opened Prelude

  const PREDEFINED_ID := "bot-security"

  datatype Bot = Bot(id: int, predefined: bool, data: string)

  datatype Path = Path(bot: int, path: string, symlink: Option<string>)

  datatype NewPath = NewPath(bot: string, path: string, symlink: Option<string>)

  // INTEGER PRIMARY KEY of the old table.
  ghost predicate BotsKeyed(bots: seq<Bot>) { forall i, j :: 0 <= i < j < |bots| ==> bots[i].id != bots[j].id }

  // New id of bot i; `generated` holds the ids drawn for the bots that are not predefined.
  function NewId(bots: seq<Bot>, generated: seq<string>, i: nat): string
    requires i < |bots| == |generated|
  {
    if bots[i].predefined then PREDEFINED_ID else generated[i]
  }

  // The new ids of the first n bots are pairwise different.
  ghost predicate DistinctTo(bots: seq<Bot>, generated: seq<string>, n: nat)
    requires n <= |bots| == |generated|
  {
    forall i, j :: 0 <= i < j < n ==> NewId(bots, generated, i) != NewId(bots, generated, j)
  }

  ghost predicate NewIdsDistinct(bots: seq<Bot>, generated: seq<string>)
    requires |bots| == |generated|
  {
    DistinctTo(bots, generated, |bots|)
  }

  // The new ids clash exactly when two bots are predefined or two drawn ids are equal.
  lemma DistinctIff(bots: seq<Bot>, generated: seq<string>)
    requires |bots| == |generated| && forall i :: 0 <= i < |generated| ==> "trig-" <= generated[i]
    ensures NewIdsDistinct(bots, generated) <==>
      && (forall i, j :: 0 <= i < j < |bots| ==> !(bots[i].predefined && bots[j].predefined))
      && (forall i, j :: 0 <= i < j < |bots| && !bots[i].predefined && !bots[j].predefined ==>
          generated[i] != generated[j])
  {
    assert PREDEFINED_ID[0] != "trig-"[0];
    forall i | 0 <= i < |bots| ensures generated[i] != PREDEFINED_ID {
      assert "trig-" <= generated[i];
      assert generated[i][0] == "trig-"[0];
    }
    if NewIdsDistinct(bots, generated) {
      forall i, j | 0 <= i < j < |bots|
        ensures !(bots[i].predefined && bots[j].predefined)
        ensures !bots[i].predefined && !bots[j].predefined ==> generated[i] != generated[j]
      {
        assert NewId(bots, generated, i) != NewId(bots, generated, j);
      }
    }
  }

  // ------------------------------------------------------------ symlink names

  // old.split("_", 1)[1], or the whole name without an underscore.
  function Basename(name: string): string {
    if '_' !in name then name else AfterUnderscore(name)
  }

  function AfterUnderscore(name: string): string
    requires '_' in name
  {
    if name[0] == '_' then name[1..] else AfterUnderscore(name[1..])
  }

  lemma {:induction false} AfterUnderscoreOf(id: string, rest: string)
    requires '_' !in id
    ensures AfterUnderscore(id + "_" + rest) == rest
  {
    var s := id + "_" + rest;
    assert s[|id|] == '_';
    if id == "" {
      assert s[1..] == rest;
    } else {
      assert s[1..] == id[1..] + "_" + rest;
      AfterUnderscoreOf(id[1..], rest);
    }
  }

  // The name is cut at its first underscore.
  lemma BasenameIs(id: string, rest: string)
    requires '_' !in id
    ensures Basename(id) == id && Basename(id + "_" + rest) == rest
  {
    AfterUnderscoreOf(id, rest);
    assert (id + "_" + rest)[|id|] == '_';
  }

  function NewSymlink(id: string, old_: Option<string>): Option<string> {
    if old_.Some? && old_.value != "" then Some(id + "_" + Basename(old_.value)) else None
  }

  // Renaming keeps the part after the id, so it can be repeated.
  lemma SymlinkKeepsBasename(id: string, old_: string)
    requires '_' !in id && old_ != ""
    ensures NewSymlink(id, Some(old_)) == Some(id + "_" + Basename(old_))
    ensures Basename(NewSymlink(id, Some(old_)).value) == Basename(old_)
    ensures NewSymlink(id, None).None? && NewSymlink(id, Some("")).None?
  {
    AfterUnderscoreOf(id, Basename(old_));
    assert (id + "_" + Basename(old_))[|id|] == '_';
  }

  // ------------------------------------------------------------ the expected result

  // Bot ids to new ids; a repeated id keeps its last one.
  function Mapping(bots: seq<Bot>, generated: seq<string>, n: nat): map<int, string>
    requires n <= |bots| == |generated|
  {
    if n == 0 then map[] else Mapping(bots, generated, n - 1)[bots[n - 1].id := NewId(bots, generated, n - 1)]
  }

  lemma {:induction false} MappingAt(bots: seq<Bot>, generated: seq<string>, n: nat)
    requires n <= |bots| == |generated| && BotsKeyed(bots)
    ensures forall x :: x in Mapping(bots, generated, n) <==> exists i :: 0 <= i < n && bots[i].id == x
    ensures forall i :: 0 <= i < n ==>
      bots[i].id in Mapping(bots, generated, n) && Mapping(bots, generated, n)[bots[i].id] == NewId(bots, generated, i)
  {
    if n > 0 {
      MappingAt(bots, generated, n - 1);
    }
  }

  // The paths with a live owner, in order, moved to the owner's new id.
  function Moved(paths: seq<Path>, ids: map<int, string>, n: nat): seq<NewPath>
    requires n <= |paths|
  {
    if n == 0 then []
    else
      var p := paths[n - 1];
      Moved(paths, ids, n - 1)
      + if p.bot in ids && ids[p.bot] != "" then [NewPath(ids[p.bot], p.path, NewSymlink(ids[p.bot], p.symlink))]
          else []
  }

  // UNIQUE(bot_id, local_project_path) among the first n paths, as far as their bots are live.
  ghost predicate PathsKeyed(paths: seq<Path>, ids: map<int, string>, n: nat)
    requires n <= |paths|
  {
    forall i, j :: 0 <= i < j < n && paths[i].bot in ids && paths[i].bot == paths[j].bot ==>
        paths[i].path != paths[j].path
  }

  ghost predicate NewPathsKeyed(paths: seq<NewPath>) {
    forall i, j :: 0 <= i < j < |paths| ==> paths[i].bot != paths[j].bot || paths[i].path != paths[j].path
  }

  ghost predicate Injective(ids: map<int, string>) {
    forall x, y :: x in ids && y in ids && ids[x] == ids[y] ==> x == y
  }

  lemma MappingInjective(bots: seq<Bot>, generated: seq<string>)
    requires |bots| == |generated| && BotsKeyed(bots)
    ensures NewIdsDistinct(bots, generated) ==> Injective(Mapping(bots, generated, |bots|))
  {
    MappingAt(bots, generated, |bots|);
    var ids := Mapping(bots, generated, |bots|);
    hide Mapping, NewId;
    if NewIdsDistinct(bots, generated) {
      forall x, y | x in ids && y in ids && ids[x] == ids[y] ensures x == y {
        var i :| 0 <= i < |bots| && bots[i].id == x;
        var j :| 0 <= j < |bots| && bots[j].id == y;
        assert ids[bots[i].id] == NewId(bots, generated, i) && ids[bots[j].id] == NewId(bots, generated, j);
      }
    }
  }

  lemma MappingNonEmpty(bots: seq<Bot>, generated: seq<string>)
    requires |bots| == |generated| && BotsKeyed(bots)
    requires forall i :: 0 <= i < |generated| ==> "trig-" <= generated[i]
    ensures forall x :: x in Mapping(bots, generated, |bots|) ==> Mapping(bots, generated, |bots|)[x] != ""
  {
    MappingAt(bots, generated, |bots|);
    var ids := Mapping(bots, generated, |bots|);
    hide Mapping;
    forall x | x in ids ensures ids[x] != "" {
      var i :| 0 <= i < |bots| && bots[i].id == x;
      assert ids[bots[i].id] == NewId(bots, generated, i);
      assert "trig-" <= generated[i];
    }
  }

  // A moved path comes from a path with a live owner, and every such path is moved.
  lemma {:induction false} MovedMembers(paths: seq<Path>, ids: map<int, string>, n: nat, q: NewPath)
    requires n <= |paths|
    ensures q in Moved(paths, ids, n) <==>
      exists k :: 0 <= k < n && paths[k].bot in ids && ids[paths[k].bot] != ""
                  && q == NewPath(ids[paths[k].bot], paths[k].path, NewSymlink(ids[paths[k].bot], paths[k].symlink))
  {
    hide NewSymlink;
    if n > 0 {
      MovedMembers(paths, ids, n - 1, q);
    }
  }

  ghost predicate Clashes(paths: seq<NewPath>, q: NewPath) {
    exists k :: 0 <= k < |paths| && paths[k].bot == q.bot && paths[k].path == q.path
  }

  lemma AppendKeyed(paths: seq<NewPath>, q: NewPath)
    ensures NewPathsKeyed(paths + [q]) <==> NewPathsKeyed(paths) && !Clashes(paths, q)
  {
    var s := paths + [q];
    forall i | 0 <= i < |paths| ensures s[i] == paths[i] {}
    assert s[|paths|] == q;
    if NewPathsKeyed(s) {
      forall i | 0 <= i < |paths| ensures paths[i].bot != q.bot || paths[i].path != q.path {
        assert s[i].bot != s[|paths|].bot || s[i].path != s[|paths|].path;
      }
      forall i, j | 0 <= i < j < |paths| ensures paths[i].bot != paths[j].bot || paths[i].path != paths[j].path {
        assert s[i].bot != s[j].bot || s[i].path != s[j].path;
      }
    }
  }

  // The path moved from row n clashes with an earlier one exactly when the old rows did.
  lemma ClashIffOldClash(paths: seq<Path>, ids: map<int, string>, n: nat)
    requires n < |paths| && Injective(ids) && paths[n].bot in ids && ids[paths[n].bot] != ""
    ensures var q := NewPath(ids[paths[n].bot], paths[n].path, NewSymlink(ids[paths[n].bot], paths[n].symlink));
            Clashes(Moved(paths, ids, n), q) <==>
              exists k :: 0 <= k < n && paths[k].bot == paths[n].bot && paths[k].path == paths[n].path
  {
    hide NewSymlink, Moved;
    var q := NewPath(ids[paths[n].bot], paths[n].path, NewSymlink(ids[paths[n].bot], paths[n].symlink));
    var moved := Moved(paths, ids, n);
    if Clashes(moved, q) {
      var m :| 0 <= m < |moved| && moved[m].bot == q.bot && moved[m].path == q.path;
      MovedMembers(paths, ids, n, moved[m]);
    }
    if k :| 0 <= k < n && paths[k].bot == paths[n].bot && paths[k].path == paths[n].path {
      var r := NewPath(ids[paths[k].bot], paths[k].path, NewSymlink(ids[paths[k].bot], paths[k].symlink));
      MovedMembers(paths, ids, n, r);
      assert r in moved;
    }
  }

  // ------------------------------------------------------------ the conversion

  method MapIds(bots: seq<Bot>, generated: seq<string>) returns (ids: map<int, string>)
    requires |bots| == |generated|
    ensures ids == Mapping(bots, generated, |bots|)
  {
    ids := map[];
    for i := 0 to |bots|
      invariant ids == Mapping(bots, generated, i)
    {
      ids := ids[bots[i].id := NewId(bots, generated, i)];
    }
  }

  // The first n bots stand unchanged under their new ids, and nothing else does.
  ghost predicate BotsConverted(bots: seq<Bot>, generated: seq<string>, n: nat, rows: map<string, Bot>)
    requires n <= |bots| == |generated|
  {
    && (forall i :: 0 <= i < n ==> NewId(bots, generated, i) in rows && rows[NewId(bots, generated, i)] == bots[i])
    && (forall x :: x in rows ==> exists i :: 0 <= i < n && NewId(bots, generated, i) == x)
  }

  method InsertBots(bots: seq<Bot>, generated: seq<string>) returns (ok: bool, rows: map<string, Bot>)
    requires |bots| == |generated|
    ensures ok <==> NewIdsDistinct(bots, generated)
    ensures ok ==> BotsConverted(bots, generated, |bots|, rows)
  {
    rows := map[];
    for i := 0 to |bots|
      invariant DistinctTo(bots, generated, i) && BotsConverted(bots, generated, i, rows)
    {
      var id := NewId(bots, generated, i);
      if id in rows {
        return false, rows;
      }
      rows := rows[id := bots[i]];
    }
    ok := true;
  }

  method InsertPaths(paths: seq<Path>, ids: map<int, string>) returns (ok: bool, rows: seq<NewPath>)
    requires Injective(ids) && forall x :: x in ids ==> ids[x] != ""
    ensures ok <==> PathsKeyed(paths, ids, |paths|)
    ensures ok ==> rows == Moved(paths, ids, |paths|) && NewPathsKeyed(rows)
  {
    rows := [];
    for n := 0 to |paths|
      invariant PathsKeyed(paths, ids, n)
      invariant rows == Moved(paths, ids, n) && NewPathsKeyed(rows)
    {
      hide NewSymlink;
      var p := paths[n];
      if p.bot in ids && ids[p.bot] != "" {
        var q := NewPath(ids[p.bot], p.path, NewSymlink(ids[p.bot], p.symlink));
        ClashIffOldClash(paths, ids, n);
        AppendKeyed(rows, q);
        if exists k :: 0 <= k < |rows| && rows[k].bot == q.bot && rows[k].path == q.path {
          return false, rows;
        }
        rows := rows + [q];
      }
    }
    ok := true;
  }

  // After a successful conversion every path of a live bot is attached to that bot's new id, and
  // only paths of missing bots are dropped.
  lemma PathsStayAttached(bots: seq<Bot>, generated: seq<string>, paths: seq<Path>, i: nat, k: nat)
    requires BotsKeyed(bots) && |generated| == |bots| && i < |bots| && k < |paths|
    requires "trig-" <= generated[i]
    requires paths[k].bot == bots[i].id
    ensures var id := if bots[i].predefined then "bot-security" else generated[i];
            NewPath(id, paths[k].path, NewSymlink(id, paths[k].symlink))
            in Moved(paths, Mapping(bots, generated, |bots|), |paths|)
  {
    hide NewSymlink;
    MappingAt(bots, generated, |bots|);
    var ids := Mapping(bots, generated, |bots|);
    assert ids[paths[k].bot] == NewId(bots, generated, i) != "";
    MovedMembers(paths, ids, |paths|,
      NewPath(NewId(bots, generated, i), paths[k].path, NewSymlink(NewId(bots, generated, i), paths[k].symlink)));
  }

  // The owner of the path exists.
  predicate Live(bots: seq<Bot>, p: Path) { exists i :: 0 <= i < |bots| && bots[i].id == p.bot }

  function LiveRows(bots: seq<Bot>, paths: seq<Path>, n: nat): set<nat>
    requires n <= |paths|
  {
    set k: nat | k < n && Live(bots, paths[k])
  }

  lemma LiveIffMapped(bots: seq<Bot>, generated: seq<string>, p: Path)
    requires BotsKeyed(bots) && |generated| == |bots|
    ensures Live(bots, p) <==> p.bot in Mapping(bots, generated, |bots|)
  {
    MappingAt(bots, generated, |bots|);
  }

  lemma {:induction false} OnlyOrphansDropped(bots: seq<Bot>, generated: seq<string>, paths: seq<Path>, n: nat)
    requires BotsKeyed(bots) && |generated| == |bots| && n <= |paths|
    requires forall i :: 0 <= i < |bots| ==> "trig-" <= generated[i]
    ensures |Moved(paths, Mapping(bots, generated, |bots|), n)| == |LiveRows(bots, paths, n)|
  {
    hide NewSymlink, Mapping, Live, BotsKeyed;
    if n > 0 {
      OnlyOrphansDropped(bots, generated, paths, n - 1);
      LiveIffMapped(bots, generated, paths[n - 1]);
      MappingNonEmpty(bots, generated);
      if Live(bots, paths[n - 1]) {
        assert LiveRows(bots, paths, n) == LiveRows(bots, paths, n - 1) + {n - 1};
      } else {
        assert LiveRows(bots, paths, n) == LiveRows(bots, paths, n - 1);
      }
    }
  }

  lemma ConvertedById(bots: seq<Bot>, generated: seq<string>, rows: map<string, Bot>, i: nat)
    requires |bots| == |generated| && BotsConverted(bots, generated, |bots|, rows) && i < |bots|
    ensures if bots[i].predefined then "bot-security" in rows && rows["bot-security"] == bots[i]
            else generated[i] in rows && rows[generated[i]] == bots[i]
  {
    assert NewId(bots, generated, i) in rows && rows[NewId(bots, generated, i)] == bots[i];
  }

  class LegacyDatabase {
    var oldBots: seq<Bot>
    var oldPaths: seq<Path>
    var bots: map<string, Bot>
    var paths: seq<NewPath>

    // Returns false when an insert raises.  The old tables are gone either way: a failed
    // conversion leaves the new tables empty.
    method MigrateToStringIds(generated: seq<string>) returns (ok: bool)
      requires BotsKeyed(oldBots) && |generated| == |oldBots|
      requires forall i :: 0 <= i < |generated| ==> "trig-" <= generated[i]
      modifies this
      ensures oldBots == [] && oldPaths == []
      ensures var ids := Mapping(old(oldBots), generated, |old(oldBots)|);
              && (ok <==> NewIdsDistinct(old(oldBots), generated) && PathsKeyed(old(oldPaths), ids, |old(oldPaths)|))
              && (ok ==> BotsConverted(old(oldBots), generated, |old(oldBots)|, bots)
                         && paths == Moved(old(oldPaths), ids, |old(oldPaths)|) && NewPathsKeyed(paths))
      ensures ok ==> forall i :: 0 <= i < |old(oldBots)| ==>
                       if old(oldBots)[i].predefined
                       then "bot-security" in bots && bots["bot-security"] == old(oldBots)[i]
                       else generated[i] in bots && bots[generated[i]] == old(oldBots)[i]
      ensures !ok ==> bots == map[] && paths == []
    {
      hide *;
      var rows, olds := oldBots, oldPaths;
      oldBots, oldPaths, bots, paths := [], [], map[], [];
      var ids := MapIds(rows, generated);
      var newBots;
      ok, newBots := InsertBots(rows, generated);
      if !ok {
        return;
      }
      MappingInjective(rows, generated);
      MappingNonEmpty(rows, generated);
      var newPaths;
      ok, newPaths := InsertPaths(olds, ids);
      if ok {
        bots, paths := newBots, newPaths;
        forall i | 0 <= i < |rows|
          ensures if rows[i].predefined then "bot-security" in bots && bots["bot-security"] == rows[i]
                  else generated[i] in bots && bots[generated[i]] == rows[i]
        {
          ConvertedById(rows, generated, newBots, i);
        }
      }
    }
  }
}
