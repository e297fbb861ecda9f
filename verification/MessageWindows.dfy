// Context windows around recalled messages and paging through a thread
// (backend/app/db/agent_memory.py, _execute_recall, _expand_with_context, get_messages).
//
// Rows with equal created_at are read in the order of the index on (thread_id, created_at), that
// is by row id.
module MessageWindows {
  import opened Prelude
  import HybridRecall

  type Message = HybridRecall.Message
  type Id = HybridRecall.Id

  // ------------------------------------------------------------ the order of a thread

  function InsertByTime(rows: seq<Message>, m: Message): seq<Message> {
    if rows != [] && rows[|rows| - 1].at > m.at then InsertByTime(rows[..|rows| - 1], m) + [rows[|rows| - 1]]
    else rows + [m]
  }

  // The rows of one thread, oldest first; `table` is in row id order.
  function Thread(table: seq<Message>, t: string): seq<Message> {
    if table == [] then []
    else
      var m := table[|table| - 1];
      var before := Thread(table[..|table| - 1], t);
      if m.thread == t then InsertByTime(before, m) else before
  }

  ghost predicate Ordered(rows: seq<Message>) { forall i, j :: 0 <= i < j < |rows| ==> rows[i].at <= rows[j].at }

  // Distinct timestamps.
  ghost predicate NoTies(rows: seq<Message>) { forall i, j :: 0 <= i < j < |rows| ==> rows[i].at != rows[j].at }

  ghost predicate UniqueIds(rows: seq<Message>) { forall i, j :: 0 <= i < j < |rows| ==> rows[i].id != rows[j].id }

  lemma AppendOrdered(rows: seq<Message>, m: Message)
    requires Ordered(rows) && forall x :: x in rows ==> x.at <= m.at
    ensures Ordered(rows + [m])
  {
    forall i, j | 0 <= i < j < |rows| + 1 ensures (rows + [m])[i].at <= (rows + [m])[j].at {
      assert rows[i] in rows;
    }
  }

  lemma {:induction false} InsertByTimeOrdered(rows: seq<Message>, m: Message)
    requires Ordered(rows)
    ensures Ordered(InsertByTime(rows, m))
    ensures multiset(InsertByTime(rows, m)) == multiset(rows) + multiset{m}
  {
    if rows != [] && rows[|rows| - 1].at > m.at {
      var init, last := rows[..|rows| - 1], rows[|rows| - 1];
      InsertByTimeOrdered(init, m);
      assert rows == init + [last];
      var r := InsertByTime(init, m);
      forall x | x in r ensures x.at <= last.at {
        assert x in multiset(r);
        assert x in init || x == m;
      }
      AppendOrdered(r, last);
    } else {
      AppendOrdered(rows, m);
    }
  }

  function InThread(table: seq<Message>, t: string): seq<Message> {
    if table == [] then []
    else
      var m := table[|table| - 1];
      if m.thread == t then InThread(table[..|table| - 1], t) + [m] else InThread(table[..|table| - 1], t)
  }

  // The thread is its rows in time order.
  lemma {:induction false} ThreadIsOrdered(table: seq<Message>, t: string)
    ensures Ordered(Thread(table, t))
    ensures multiset(Thread(table, t)) == multiset(InThread(table, t))
  {
    if table != [] {
      var n := |table| - 1;
      ThreadIsOrdered(table[..n], t);
      if table[n].thread == t {
        InsertByTimeOrdered(Thread(table[..n], t), table[n]);
      }
    }
  }

  // The rows with one timestamp.
  function AtTime(rows: seq<Message>, at: int): seq<Message> {
    if rows == [] then []
    else AtTime(rows[..|rows| - 1], at) + if rows[|rows| - 1].at == at then [rows[|rows| - 1]] else []
  }

  lemma AtTimeSnoc(rows: seq<Message>, m: Message, at: int)
    ensures AtTime(rows + [m], at) == AtTime(rows, at) + if m.at == at then [m] else []
  {
    assert (rows + [m])[..|rows|] == rows;
  }

  lemma {:induction false} InsertByTimeIsStable(rows: seq<Message>, m: Message, at: int)
    ensures AtTime(InsertByTime(rows, m), at) == AtTime(rows, at) + if m.at == at then [m] else []
  {
    if rows != [] && rows[|rows| - 1].at > m.at {
      var init, last := rows[..|rows| - 1], rows[|rows| - 1];
      InsertByTimeIsStable(init, m, at);
      AtTimeSnoc(InsertByTime(init, m), last, at);
    } else {
      AtTimeSnoc(rows, m, at);
    }
  }

  // Rows with one timestamp are read in row id order, which is the order of the table.
  lemma {:induction false} TiesKeepTableOrder(table: seq<Message>, t: string, at: int)
    ensures AtTime(Thread(table, t), at) == AtTime(InThread(table, t), at)
  {
    if table != [] {
      var n := |table| - 1;
      TiesKeepTableOrder(table[..n], t, at);
      if table[n].thread == t {
        hide AtTime;
        InsertByTimeIsStable(Thread(table[..n], t), table[n], at);
        AtTimeSnoc(InThread(table[..n], t), table[n], at);
      }
    }
  }

  lemma {:induction false} InThreadMembers(table: seq<Message>, t: string, m: Message)
    ensures m in InThread(table, t) <==> m in table && m.thread == t
  {
    if table != [] {
      var n := |table| - 1;
      InThreadMembers(table[..n], t, m);
      assert table == table[..n] + [table[n]];
    }
  }

  lemma ThreadMembers(table: seq<Message>, t: string, m: Message)
    ensures m in Thread(table, t) <==> m in table && m.thread == t
  {
    ThreadIsOrdered(table, t);
    InThreadMembers(table, t, m);
    assert m in Thread(table, t) <==> m in multiset(Thread(table, t));
    assert m in InThread(table, t) <==> m in multiset(InThread(table, t));
  }

  // ------------------------------------------------------------ the queries

  function Reverse<T>(s: seq<T>): seq<T> { seq(|s|, i requires 0 <= i < |s| => s[|s| - 1 - i]) }

  function Limit<T>(s: seq<T>, n: nat): seq<T> { s[..Min(n, |s|)] }

  // Of the first n rows, those not later than `at`.
  function UpTo(rows: seq<Message>, at: int, n: nat): seq<Message>
    requires n <= |rows|
  {
    if n == 0 then []
    else UpTo(rows, at, n - 1) + (if rows[n - 1].at <= at then [rows[n - 1]] else [])
  }

  // Of the first n rows, those later than `at`.
  function After(rows: seq<Message>, at: int, n: nat): seq<Message>
    requires n <= |rows|
  {
    if n == 0 then []
    else After(rows, at, n - 1) + (if rows[n - 1].at > at then [rows[n - 1]] else [])
  }

  // ORDER BY ... DESC LIMIT n, put back in chronological order.
  function Newest<T>(s: seq<T>, n: nat): seq<T> { Reverse(Limit(Reverse(s), n)) }

  // The two queries around one match, put in chronological order.
  function Window(table: seq<Message>, match_: Message, r: nat): seq<Message> {
    var rows := Thread(table, match_.thread);
    Newest(UpTo(rows, match_.at, |rows|), r + 1) + Limit(After(rows, match_.at, |rows|), r)
  }

  // Number of rows not later than `at`.
  function CountUpTo(rows: seq<Message>, at: int): nat { |UpTo(rows, at, |rows|)| }

  // Filtering a thread by time cuts it in two.
  lemma {:induction false} CutAt(rows: seq<Message>, at: int, n: nat)
    requires Ordered(rows) && n <= |rows|
    ensures var cut := |UpTo(rows, at, n)|;
            && cut <= n
            && UpTo(rows, at, n) == rows[..cut]
            && After(rows, at, n) == rows[cut..n]
            && forall i :: 0 <= i < n ==> (rows[i].at <= at <==> i < cut)
  {
    if n > 0 {
      hide Ordered, UpTo, After;
      CutAt(rows, at, n - 1);
      var cut := |UpTo(rows, at, n - 1)|;
      CutStep(rows, at, n, cut);
      CutUnfold(rows, at, n);
      if rows[n - 1].at <= at {
        assert rows[..n] == rows[..n - 1] + [rows[n - 1]];
      } else {
        assert rows[cut..n] == rows[cut..n - 1] + [rows[n - 1]];
      }
    }
  }

  lemma CutUnfold(rows: seq<Message>, at: int, n: nat)
    requires 0 < n <= |rows|
    ensures rows[n - 1].at <= at ==> UpTo(rows, at, n) == UpTo(rows, at, n - 1) + [rows[n - 1]]
    ensures rows[n - 1].at <= at ==> After(rows, at, n) == After(rows, at, n - 1)
    ensures rows[n - 1].at > at ==> UpTo(rows, at, n) == UpTo(rows, at, n - 1)
    ensures rows[n - 1].at > at ==> After(rows, at, n) == After(rows, at, n - 1) + [rows[n - 1]]
  {
  }

  lemma CutStep(rows: seq<Message>, at: int, n: nat, cut: nat)
    requires Ordered(rows) && cut < n <= |rows|
    requires forall i :: 0 <= i < n - 1 ==> (rows[i].at <= at <==> i < cut)
    ensures rows[n - 1].at <= at ==> cut == n - 1
    ensures forall i :: 0 <= i < n ==> (rows[i].at <= at <==> i < if rows[n - 1].at <= at then n else cut)
  {
    assert cut < n - 1 ==> rows[cut].at <= rows[n - 1].at;
  }

  lemma UpToIsPrefix(rows: seq<Message>, at: int)
    requires Ordered(rows)
    ensures CountUpTo(rows, at) <= |rows|
    ensures UpTo(rows, at, |rows|) == rows[..CountUpTo(rows, at)]
    ensures After(rows, at, |rows|) == rows[CountUpTo(rows, at)..]
    ensures forall i :: 0 <= i < |rows| ==> (rows[i].at <= at <==> i < CountUpTo(rows, at))
  {
    CutAt(rows, at, |rows|);
    hide UpTo, After;
  }

  lemma NewestOfPrefix<T>(s: seq<T>, e: nat, n: nat)
    requires e <= |s|
    ensures Newest(s[..e], n) == s[e - Min(n, e)..e]
  {
  }

  lemma LimitOfSuffix<T>(s: seq<T>, e: nat, n: nat)
    requires e <= |s|
    ensures Limit(s[e..], n) == s[e..Min(|s|, e + n)]
  {
  }

  // The window is a stretch of the thread ending r rows after the last row not later than the match.
  lemma WindowIsStretch(table: seq<Message>, m: Message, r: nat)
    ensures var rows := Thread(table, m.thread);
            var e := CountUpTo(rows, m.at);
            e <= |rows| && Window(table, m, r) == rows[Max(0, e - (r + 1))..Min(|rows|, e + r)]
  {
    hide Thread, UpTo, After, Newest, Limit;
    var rows := Thread(table, m.thread);
    ThreadIsOrdered(table, m.thread);
    UpToIsPrefix(rows, m.at);
    hide Ordered;
    var e := CountUpTo(rows, m.at);
    NewestOfPrefix(rows, e, r + 1);
    LimitOfSuffix(rows, e, r);
    SlicesJoin(rows, Max(0, e - (r + 1)), e, Min(|rows|, e + r));
  }

  lemma SlicesJoin<T>(s: seq<T>, a: nat, b: nat, c: nat)
    requires a <= b <= c <= |s|
    ensures s[a..b] + s[b..c] == s[a..c]
  {
  }

  // The row after the last row that shares row i's timestamp.
  lemma LastTie(rows: seq<Message>, i: nat)
    requires Ordered(rows) && i < |rows|
    ensures i < CountUpTo(rows, rows[i].at) <= |rows|
    ensures NoTies(rows) ==> CountUpTo(rows, rows[i].at) == i + 1
    ensures forall j :: i < j < |rows| ==> (j < CountUpTo(rows, rows[i].at) <==> rows[j].at == rows[i].at)
  {
    UpToIsPrefix(rows, rows[i].at);
    hide CountUpTo;
    assert forall j :: i < j < |rows| ==> rows[j].at >= rows[i].at;
    if NoTies(rows) && i + 1 < |rows| {
      assert rows[i + 1].at != rows[i].at;
    }
  }

  // With distinct timestamps the window is centred on the match.
  lemma WindowIsCentred(table: seq<Message>, i: nat, t: string, r: nat)
    requires i < |Thread(table, t)| && NoTies(Thread(table, t))
    ensures var rows := Thread(table, t);
            rows[i].thread == t && Window(table, rows[i], r) == rows[Max(0, i - r)..Min(|rows|, i + r + 1)]
  {
    hide Thread, Window, CountUpTo, Ordered, NoTies;
    var rows := Thread(table, t);
    ThreadMembers(table, t, rows[i]);
    ThreadIsOrdered(table, t);
    WindowIsStretch(table, rows[i], r);
    LastTie(rows, i);
  }

  // In general a window holds its match exactly when at most r later rows share the timestamp.
  lemma MatchInWindow(table: seq<Message>, i: nat, t: string, r: nat)
    requires i < |Thread(table, t)| && UniqueIds(Thread(table, t))
    ensures var rows := Thread(table, t);
            rows[i] in Window(table, rows[i], r) <==> i + r + 1 >= |rows| || rows[i + r + 1].at != rows[i].at
  {
    hide Thread, Window, CountUpTo, Ordered;
    var rows := Thread(table, t);
    ThreadMembers(table, t, rows[i]);
    ThreadIsOrdered(table, t);
    WindowIsStretch(table, rows[i], r);
    LastTie(rows, i);
    var e := CountUpTo(rows, rows[i].at);
    InStretch(rows, i, Max(0, e - (r + 1)), Min(|rows|, e + r));
  }

  lemma InStretch(rows: seq<Message>, i: nat, lo: nat, hi: nat)
    requires UniqueIds(rows) && i < |rows| && lo <= hi <= |rows| && i < hi
    ensures rows[i] in rows[lo..hi] <==> lo <= i
  {
    if lo <= i {
      assert rows[lo..hi][i - lo] == rows[i];
    }
  }

  // ------------------------------------------------------------ context expansion

  ghost predicate HasId(rows: seq<Message>, id: Id) { exists i :: 0 <= i < |rows| && rows[i].id == id }

  // The rows whose id has not occurred before.
  ghost function Dedup(rows: seq<Message>): seq<Message> {
    if rows == [] then []
    else
      var init, last := rows[..|rows| - 1], rows[|rows| - 1];
      if HasId(init, last.id) then Dedup(init) else Dedup(init) + [last]
  }

  // The windows of all matches, one after the other.
  ghost function Windows(table: seq<Message>, matches: seq<Message>, r: nat): seq<Message> {
    if matches == [] then []
    else Windows(table, matches[..|matches| - 1], r) + Window(table, matches[|matches| - 1], r)
  }

  lemma HasIdAppend(rows: seq<Message>, m: Message, id: Id)
    ensures HasId(rows + [m], id) <==> HasId(rows, id) || m.id == id
  {
    if HasId(rows, id) {
      var i :| 0 <= i < |rows| && rows[i].id == id;
      assert (rows + [m])[i].id == id;
    }
    assert (rows + [m])[|rows|] == m;
  }

  lemma {:induction false} DedupKeepsIds(rows: seq<Message>)
    ensures forall id :: HasId(Dedup(rows), id) <==> HasId(rows, id)
    ensures UniqueIds(Dedup(rows)) && |Dedup(rows)| <= |rows|
    ensures forall m :: m in Dedup(rows) ==> m in rows
  {
    if rows != [] {
      var init, last := rows[..|rows| - 1], rows[|rows| - 1];
      DedupKeepsIds(init);
      assert rows == init + [last];
      forall id ensures HasId(Dedup(rows), id) <==> HasId(rows, id) {
        HasIdAppend(init, last, id);
        HasIdAppend(Dedup(init), last, id);
      }
      if !HasId(init, last.id) {
        assert !HasId(Dedup(init), last.id);
      }
    }
  }

  lemma DedupSnoc(rows: seq<Message>, m: Message)
    ensures Dedup(rows + [m]) == if HasId(rows, m.id) then Dedup(rows) else Dedup(rows) + [m]
    ensures forall id :: HasId(rows + [m], id) <==> HasId(rows, id) || m.id == id
  {
    assert (rows + [m])[..|rows|] == rows;
    forall id ensures HasId(rows + [m], id) <==> HasId(rows, id) || m.id == id {
      HasIdAppend(rows, m, id);
    }
  }

  // One match: append the rows of its window that have not been seen.
  method AddWindow(window: seq<Message>, expanded0: seq<Message>, seen0: set<Id>, ghost done: seq<Message>)
    returns (expanded: seq<Message>, seen: set<Id>)
    requires expanded0 == Dedup(done) && forall id :: id in seen0 <==> HasId(done, id)
    ensures expanded == Dedup(done + window) && forall id :: id in seen <==> HasId(done + window, id)
  {
    hide Dedup, HasId;
    expanded, seen := expanded0, seen0;
    assert done + window[..0] == done;
    for j := 0 to |window|
      invariant expanded == Dedup(done + window[..j])
      invariant forall id :: id in seen <==> HasId(done + window[..j], id)
    {
      var m := window[j];
      ghost var before := done + window[..j];
      assert done + window[..j + 1] == before + [m];
      DedupSnoc(before, m);
      if m.id !in seen {
        seen := seen + {m.id};
        expanded := expanded + [m];
      }
    }
    assert window[..|window|] == window;
  }

  method ExpandWithContext(table: seq<Message>, matches: seq<Message>, r: nat) returns (expanded: seq<Message>)
    ensures expanded == Dedup(Windows(table, matches, r))
  {
    expanded := [];
    var seen: set<Id> := {};
    for i := 0 to |matches|
      invariant expanded == Dedup(Windows(table, matches[..i], r))
      invariant forall id :: id in seen <==> HasId(Windows(table, matches[..i], r), id)
    {
      assert matches[..i + 1][..i] == matches[..i];
      expanded, seen := AddWindow(Window(table, matches[i], r), expanded, seen, Windows(table, matches[..i], r));
    }
    assert matches[..|matches|] == matches;
  }

  // _execute_recall: the return stands inside the loop, so only the first match is expanded, and
  // without matches the function falls through to None.
  method ExecuteRecall(table: seq<Message>, matches: seq<Message>, r: int) returns (result: Option<seq<Message>>)
    ensures r <= 0 ==> result == Some(matches)
    ensures r > 0 && matches == [] ==> result == None
    ensures r > 0 && matches != [] ==> result == Some(Dedup(Window(table, matches[0], r)))
  {
    if r <= 0 {
      return Some(matches);
    }
    for i := 0 to |matches|
      invariant i == 0
    {
      assert [] + Window(table, matches[i], r) == Window(table, matches[i], r);
      var expanded, _ := AddWindow(Window(table, matches[i], r), [], {}, []);
      return Some(expanded);
    }
    result := None;
  }

  // x stands within r places of match m in its thread.
  ghost predicate Near(table: seq<Message>, x: Message, m: Message, r: nat) {
    var rows := Thread(table, m.thread);
    exists i, j :: 0 <= i < |rows| && 0 <= j < |rows| && rows[i] == m && rows[j] == x && i - r <= j <= i + r
  }

  lemma InSlice(rows: seq<Message>, lo: nat, hi: nat, x: Message)
    requires lo <= hi <= |rows|
    ensures x in rows[lo..hi] <==> exists j :: lo <= j < hi && rows[j] == x
  {
    forall j | lo <= j < hi ensures rows[lo..hi][j - lo] == rows[j] {}
  }

  lemma WindowMembers(table: seq<Message>, m: Message, r: nat, x: Message)
    requires m in table && NoTies(Thread(table, m.thread))
    ensures x in Window(table, m, r) <==> Near(table, x, m, r)
    ensures |Window(table, m, r)| <= 2 * r + 1
  {
    var rows := Thread(table, m.thread);
    ThreadMembers(table, m.thread, m);
    var i :| 0 <= i < |rows| && rows[i] == m;
    WindowIsCentred(table, i, m.thread, r);
    var lo, hi := Max(0, i - r), Min(|rows|, i + r + 1);
    hide Thread, Window;
    InSlice(rows, lo, hi, x);
    assert forall i' :: 0 <= i' < |rows| && rows[i'] == m ==> i' == i;
  }

  lemma {:induction false} WindowsMembers(table: seq<Message>, matches: seq<Message>, r: nat, x: Message)
    requires forall k :: 0 <= k < |matches| ==> matches[k] in table && NoTies(Thread(table, matches[k].thread))
    ensures x in Windows(table, matches, r) <==> exists k :: 0 <= k < |matches| && Near(table, x, matches[k], r)
  {
    hide Near, Window, NoTies, Thread;
    if matches != [] {
      var init, last := matches[..|matches| - 1], matches[|matches| - 1];
      WindowsMembers(table, init, r, x);
      WindowMembers(table, last, r, x);
      assert forall k :: 0 <= k < |init| ==> init[k] == matches[k];
    }
  }

  lemma {:induction false} WindowsCount(table: seq<Message>, matches: seq<Message>, r: nat)
    requires forall k :: 0 <= k < |matches| ==> matches[k] in table && NoTies(Thread(table, matches[k].thread))
    ensures |Windows(table, matches, r)| <= (2 * r + 1) * |matches|
  {
    hide Near, Window, NoTies, Thread;
    if matches != [] {
      var init, last := matches[..|matches| - 1], matches[|matches| - 1];
      WindowsCount(table, init, r);
      WindowMembers(table, last, r, last);
      assert (2 * r + 1) * |matches| == (2 * r + 1) * |init| + (2 * r + 1);
    }
  }

  // The table's rows have distinct ids.
  lemma SameRow(table: seq<Message>, x: Message, y: Message)
    requires UniqueIds(table) && x in table && y in table && x.id == y.id
    ensures x == y
  {
  }

  // With distinct timestamps in the threads concerned, the expansion holds exactly the rows within
  // r places of some match, each once; so it holds every match and at most 2r + 1 rows a match.
  lemma ExpansionIsExact(table: seq<Message>, matches: seq<Message>, r: nat, x: Message)
    requires UniqueIds(table)
    requires forall k :: 0 <= k < |matches| ==> matches[k] in table && NoTies(Thread(table, matches[k].thread))
    ensures var expanded := Dedup(Windows(table, matches, r));
            && UniqueIds(expanded)
            && (x in expanded <==> exists k :: 0 <= k < |matches| && Near(table, x, matches[k], r))
            && |expanded| <= (2 * r + 1) * |matches|
    ensures x in matches ==> x in Dedup(Windows(table, matches, r))
  {
    var all := Windows(table, matches, r);
    DedupKeepsIds(all);
    WindowsMembers(table, matches, r, x);
    WindowsCount(table, matches, r);
    if x in all {
      var p :| 0 <= p < |all| && all[p] == x;
      assert HasId(all, x.id);
      var q :| 0 <= q < |Dedup(all)| && Dedup(all)[q].id == x.id;
      var y := Dedup(all)[q];
      WindowsMembers(table, matches, r, y);
      NearIsInTable(table, matches, r, x);
      NearIsInTable(table, matches, r, y);
      SameRow(table, x, y);
    }
    if x in matches {
      var k :| 0 <= k < |matches| && matches[k] == x;
      ThreadMembers(table, x.thread, x);
      assert Near(table, x, matches[k], r);
    }
  }

  lemma NearIsInTable(table: seq<Message>, matches: seq<Message>, r: nat, x: Message)
    requires exists k :: 0 <= k < |matches| && Near(table, x, matches[k], r)
    ensures x in table
  {
    var k :| 0 <= k < |matches| && Near(table, x, matches[k], r);
    ThreadMembers(table, matches[k].thread, x);
  }

  // `results` is a best selection of both lists under fusion f, and `messages` is its expansion when a
  // range is asked for and something was found.
  ghost predicate IsRecall(table: seq<Message>, fts: seq<Message>, vec: seq<Message>, r: int, messages: seq<Message>,
                           results: seq<Message>, f: HybridRecall.Fusion)
  {
    && HybridRecall.IsRankMap(HybridRecall.Ids(fts), f.fts)
    && HybridRecall.IsRankMap(HybridRecall.Ids(vec), f.vec)
    && HybridRecall.IsTop(HybridRecall.Ids(results), Elems(HybridRecall.Ids(fts)) + Elems(HybridRecall.Ids(vec)), f)
    && (forall m :: m in results ==> m in (if m.id in HybridRecall.Ids(fts) then fts else vec))
    && messages == if r > 0 && results != [] then Dedup(Windows(table, results, r)) else results
  }

  // hybrid_recall
  method Recall(table: seq<Message>, fts: seq<Message>, vec: seq<Message>, topK: int, r: int, alpha: real)
    returns (messages: seq<Message>)
    ensures exists results, f: HybridRecall.Fusion ::
      f.alpha == alpha && f.topK == topK && IsRecall(table, fts, vec, r, messages, results, f)
  {
    var results, f := HybridRecall.Fuse(fts, vec, topK, alpha);
    if r > 0 && results != [] {
      messages := ExpandWithContext(table, results, r);
    } else {
      messages := results;
    }
    assert IsRecall(table, fts, vec, r, messages, results, f);
  }

  // ------------------------------------------------------------ what _execute_recall leaves out

  // Appending rows changes the expansion exactly when they bring a new id.
  lemma {:induction false} DedupAbsorbs(a: seq<Message>, b: seq<Message>)
    ensures Dedup(a + b) == Dedup(a) <==> forall id :: HasId(b, id) ==> HasId(a, id)
    ensures |Dedup(a + b)| >= |Dedup(a)|
  {
    if b == [] {
      assert a + b == a;
    } else {
      var init, last := b[..|b| - 1], b[|b| - 1];
      DedupAbsorbs(a, init);
      assert (a + b)[..|a + b| - 1] == a + init && (a + b)[|a + b| - 1] == last;
      assert b == init + [last];
      forall id ensures HasId(b, id) <==> HasId(init, id) || id == last.id {
        HasIdAppend(init, last, id);
      }
      HasIdConcat(a, init, last.id);
    }
  }

  lemma HasIdConcat(a: seq<Message>, b: seq<Message>, id: Id)
    ensures HasId(a + b, id) <==> HasId(a, id) || HasId(b, id)
  {
    if HasId(a, id) {
      var i :| 0 <= i < |a| && a[i].id == id;
      assert (a + b)[i].id == id;
    }
    if HasId(b, id) {
      var i :| 0 <= i < |b| && b[i].id == id;
      assert (a + b)[|a| + i].id == id;
    }
  }

  lemma {:induction false} WindowsFirst(table: seq<Message>, matches: seq<Message>, r: nat)
    requires matches != []
    ensures Windows(table, matches, r) == Window(table, matches[0], r) + Windows(table, matches[1..], r)
  {
    hide Window;
    var n := |matches| - 1;
    if n > 0 {
      WindowsFirst(table, matches[..n], r);
      assert matches[..n][1..] == matches[1..][..n - 1];
    } else {
      assert matches[..n] == [] && matches[1..] == [];
    }
  }

  // In terms of ids: nothing is lost when the other windows bring no new one.
  lemma EarlyReturnByIds(table: seq<Message>, matches: seq<Message>, r: nat)
    requires matches != []
    ensures Dedup(Windows(table, matches, r)) == Dedup(Window(table, matches[0], r))
       <==> forall id :: HasId(Windows(table, matches[1..], r), id) ==> HasId(Window(table, matches[0], r), id)
  {
    WindowsFirst(table, matches, r);
    DedupAbsorbs(Window(table, matches[0], r), Windows(table, matches[1..], r));
  }

  lemma {:induction false} WindowsIds(table: seq<Message>, matches: seq<Message>, r: nat, id: Id)
    ensures HasId(Windows(table, matches, r), id) <==>
            exists k :: 0 <= k < |matches| && HasId(Window(table, matches[k], r), id)
  {
    hide Window;
    if matches != [] {
      var init, last := matches[..|matches| - 1], matches[|matches| - 1];
      WindowsIds(table, init, r, id);
      HasIdConcat(Windows(table, init, r), Window(table, last, r), id);
      hide HasId;
      assert forall k :: 0 <= k < |init| ==> init[k] == matches[k];
    }
  }

  // Where the window of m starts and stops in its thread: a matter of counting the rows not later than m.
  function Start(table: seq<Message>, m: Message, r: nat): nat {
    Max(0, CountUpTo(Thread(table, m.thread), m.at) - (r + 1))
  }

  function Stop(table: seq<Message>, m: Message, r: nat): nat {
    Min(|Thread(table, m.thread)|, CountUpTo(Thread(table, m.thread), m.at) + r)
  }

  // With distinct timestamps these are r places to either side, clipped.
  lemma StretchIsCentred(table: seq<Message>, t: string, i: nat, r: nat)
    requires i < |Thread(table, t)| && NoTies(Thread(table, t))
    ensures var rows := Thread(table, t);
            && rows[i].thread == t
            && Start(table, rows[i], r) == Max(0, i - r)
            && Stop(table, rows[i], r) == Min(|rows|, i + r + 1)
  {
    hide Thread, CountUpTo, NoTies;
    var rows := Thread(table, t);
    ThreadMembers(table, t, rows[i]);
    ThreadIsOrdered(table, t);
    LastTie(rows, i);
  }

  lemma StretchIsWindow(table: seq<Message>, m: Message, r: nat)
    requires m in table
    ensures Start(table, m, r) < Stop(table, m, r) <= |Thread(table, m.thread)|
    ensures Window(table, m, r) == Thread(table, m.thread)[Start(table, m, r)..Stop(table, m, r)]
  {
    hide Thread, CountUpTo, Window;
    WindowIsStretch(table, m, r);
    ThreadMembers(table, m.thread, m);
    ThreadIsOrdered(table, m.thread);
    var rows := Thread(table, m.thread);
    var i :| 0 <= i < |rows| && rows[i] == m;
    LastTie(rows, i);
  }

  // Among rows with different ids a stretch covers another exactly when it starts and stops no
  // later and no earlier.
  lemma StretchCovers(rows: seq<Message>, lo: nat, hi: nat, lo': nat, hi': nat)
    requires UniqueIds(rows) && lo <= hi <= |rows| && lo' < hi' <= |rows|
    ensures (forall id :: HasId(rows[lo'..hi'], id) ==> HasId(rows[lo..hi], id)) <==> lo <= lo' && hi' <= hi
  {
    forall i | 0 <= i < |rows|
      ensures HasId(rows[lo..hi], rows[i].id) <==> lo <= i < hi
      ensures HasId(rows[lo'..hi'], rows[i].id) <==> lo' <= i < hi'
    {
      IdInStretch(rows, lo, hi, i);
      IdInStretch(rows, lo', hi', i);
    }
    if lo <= lo' && hi' <= hi {
      forall id | HasId(rows[lo'..hi'], id) ensures HasId(rows[lo..hi], id) {
        var p :| 0 <= p < hi' - lo' && rows[lo'..hi'][p].id == id;
        assert rows[lo' + p].id == id;
      }
    } else {
      var i := if lo' < lo then lo' else hi' - 1;
      assert HasId(rows[lo'..hi'], rows[i].id) && !HasId(rows[lo..hi], rows[i].id);
    }
  }

  lemma IdInStretch(rows: seq<Message>, lo: nat, hi: nat, i: nat)
    requires UniqueIds(rows) && lo <= hi <= |rows| && i < |rows|
    ensures HasId(rows[lo..hi], rows[i].id) <==> lo <= i < hi
  {
    if lo <= i < hi {
      assert rows[lo..hi][i - lo].id == rows[i].id;
    }
  }

  // The window of b lies inside the window of a.
  predicate Covers(table: seq<Message>, a: Message, b: Message, r: nat) {
    b.thread == a.thread && Start(table, a, r) <= Start(table, b, r) && Stop(table, b, r) <= Stop(table, a, r)
  }

  lemma CoversIds(table: seq<Message>, a: Message, b: Message, r: nat)
    requires UniqueIds(table) && a in table && b in table
    ensures Covers(table, a, b, r) <==>
            forall id :: HasId(Window(table, b, r), id) ==> HasId(Window(table, a, r), id)
  {
    hide Thread, CountUpTo, Window, UniqueIds, Start, Stop;
    StretchIsWindow(table, a, r);
    StretchIsWindow(table, b, r);
    if a.thread == b.thread {
      ThreadUnique(table, a.thread);
      StretchCovers(Thread(table, a.thread), Start(table, a, r), Stop(table, a, r),
                    Start(table, b, r), Stop(table, b, r));
    } else {
      OtherThread(table, a, b, r);
    }
  }

  // Windows of different threads have no id in common, and no window is empty.
  lemma OtherThread(table: seq<Message>, a: Message, b: Message, r: nat)
    requires UniqueIds(table) && a in table && b in table && a.thread != b.thread
    ensures exists id :: HasId(Window(table, b, r), id) && !HasId(Window(table, a, r), id)
  {
    hide Thread, CountUpTo, Window, UniqueIds, Start, Stop;
    StretchIsWindow(table, a, r);
    StretchIsWindow(table, b, r);
    var wa, wb := Window(table, a, r), Window(table, b, r);
    var x := wb[0];
    ThreadMembers(table, b.thread, x);
    forall p | 0 <= p < |wa| ensures wa[p].id != x.id {
      ThreadMembers(table, a.thread, wa[p]);
      if wa[p].id == x.id {
        SameRow(table, x, wa[p]);
      }
    }
    assert HasId(wb, x.id) && !HasId(wa, x.id);
  }

  // The early return gives the whole expansion exactly when every other match lies in the thread of
  // the first one, with a window that starts no earlier and stops no later.
  lemma EarlyReturnIsComplete(table: seq<Message>, matches: seq<Message>, r: nat)
    requires UniqueIds(table) && matches != [] && forall k :: 0 <= k < |matches| ==> matches[k] in table
    ensures Dedup(Windows(table, matches, r)) == Dedup(Window(table, matches[0], r))
       <==> forall k :: 1 <= k < |matches| ==> Covers(table, matches[0], matches[k], r)
  {
    hide Window, Covers, Dedup, Windows, HasId, UniqueIds;
    EarlyReturnByIds(table, matches, r);
    var rest := matches[1..];
    forall id ensures HasId(Windows(table, rest, r), id) <==>
                      exists k :: 0 <= k < |rest| && HasId(Window(table, rest[k], r), id) {
      WindowsIds(table, rest, r, id);
    }
    forall k | 1 <= k < |matches|
      ensures rest[k - 1] == matches[k]
      ensures Covers(table, matches[0], matches[k], r) <==>
              forall id :: HasId(Window(table, matches[k], r), id) ==> HasId(Window(table, matches[0], r), id)
    {
      CoversIds(table, matches[0], matches[k], r);
    }
    assert forall k :: 0 <= k < |rest| ==> rest[k] == matches[k + 1];
  }

  lemma {:induction false} DedupOfUnique(rows: seq<Message>)
    requires UniqueIds(rows)
    ensures Dedup(rows) == rows
  {
    if rows != [] {
      var init, last := rows[..|rows| - 1], rows[|rows| - 1];
      DedupOfUnique(init);
      assert rows == init + [last];
    }
  }

  lemma {:induction false} InsertByTimeUnique(rows: seq<Message>, m: Message)
    requires UniqueIds(rows) && !HasId(rows, m.id)
    ensures UniqueIds(InsertByTime(rows, m))
    ensures forall x :: x in InsertByTime(rows, m) <==> x in rows || x == m
  {
    if rows != [] && rows[|rows| - 1].at > m.at {
      var init, last := rows[..|rows| - 1], rows[|rows| - 1];
      assert rows == init + [last];
      HasIdAppend(init, last, m.id);
      InsertByTimeUnique(init, m);
      var r := InsertByTime(init, m);
      forall i | 0 <= i < |r| ensures r[i].id != last.id {
        assert r[i] in r;
      }
    }
  }

  lemma {:induction false} ThreadUnique(table: seq<Message>, t: string)
    requires UniqueIds(table)
    ensures UniqueIds(Thread(table, t))
  {
    if table != [] {
      var init, last := table[..|table| - 1], table[|table| - 1];
      assert table == init + [last];
      ThreadUnique(init, t);
      var rows := Thread(init, t);
      forall i | 0 <= i < |rows| ensures rows[i].id != last.id {
        ThreadMembers(init, t, rows[i]);
      }
      if last.thread == t {
        InsertByTimeUnique(rows, last);
      }
    }
  }

  // One match: the result of the early return is its window, as it stands in the thread.
  lemma FirstWindowAsIs(table: seq<Message>, m: Message, r: nat)
    requires UniqueIds(table)
    ensures Dedup(Window(table, m, r)) == Window(table, m, r)
  {
    hide Thread, CountUpTo, Window;
    ThreadUnique(table, m.thread);
    WindowIsStretch(table, m, r);
    DedupOfUnique(Window(table, m, r));
  }

  // ------------------------------------------------------------ paging

  // SELECT created_at WHERE id = ?
  function TimeOf(table: seq<Message>, id: Id): Option<int> {
    if table == [] then None
    else if table[|table| - 1].id == id then Some(table[|table| - 1].at)
    else TimeOf(table[..|table| - 1], id)
  }

  // get_messages; an unknown before_id compares with NULL and matches nothing.
  function GetMessages(table: seq<Message>, t: string, limit: nat, beforeId: Option<Id>): seq<Message> {
    var rows := Thread(table, t);
    if beforeId.Some? && beforeId.value != "" then
      var at := TimeOf(table, beforeId.value);
      if at.Some? then Newest(UpTo(rows, at.value - 1, |rows|), limit) else []
    else Newest(rows, limit)
  }

  lemma {:induction false} TimeOfRow(table: seq<Message>, m: Message)
    requires UniqueIds(table) && m in table
    ensures TimeOf(table, m.id) == Some(m.at)
  {
    var init, last := table[..|table| - 1], table[|table| - 1];
    assert table == init + [last];
    if last.id == m.id {
      assert last == m;
    } else {
      TimeOfRow(init, m);
    }
  }

  // A page ends with the row that precedes every row sharing row k's timestamp.
  lemma PageBefore(table: seq<Message>, t: string, limit: nat, k: nat)
    requires UniqueIds(table) && k < |Thread(table, t)| && Thread(table, t)[k].id != ""
    ensures var rows := Thread(table, t);
            var e := CountUpTo(rows, rows[k].at - 1);
            && e <= k
            && (NoTies(rows) ==> e == k)
            && GetMessages(table, t, limit, Some(rows[k].id)) == rows[e - Min(limit, e)..e]
  {
    hide Thread, TimeOf, Newest, NoTies, Ordered, UniqueIds, UpTo;
    var rows := Thread(table, t);
    ThreadIsOrdered(table, t);
    ThreadMembers(table, t, rows[k]);
    TimeOfRow(table, rows[k]);
    FirstTie(rows, k);
    UpToIsPrefix(rows, rows[k].at - 1);
    NewestOfPrefix(rows, CountUpTo(rows, rows[k].at - 1), limit);
  }

  lemma FirstTie(rows: seq<Message>, k: nat)
    requires Ordered(rows) && k < |rows|
    ensures CountUpTo(rows, rows[k].at - 1) <= k
    ensures NoTies(rows) ==> CountUpTo(rows, rows[k].at - 1) == k
  {
    UpToIsPrefix(rows, rows[k].at - 1);
    hide CountUpTo;
    if NoTies(rows) && k > 0 {
      assert rows[k - 1].at <= rows[k].at && rows[k - 1].at != rows[k].at;
    }
  }

  // The rows that can still come before message `before`: all of the thread without one.
  function End(table: seq<Message>, t: string, before: Option<Id>): nat {
    var rows := Thread(table, t);
    if before.Some? && before.value != "" then
      var at := TimeOf(table, before.value);
      if at.Some? then CountUpTo(rows, at.value - 1) else 0
    else |rows|
  }

  // A page is the stretch of at most `limit` rows before that place.
  lemma PageIsStretch(table: seq<Message>, t: string, limit: nat, before: Option<Id>)
    ensures var rows, e := Thread(table, t), End(table, t, before);
            e <= |rows| && GetMessages(table, t, limit, before) == rows[e - Min(limit, e)..e]
  {
    var rows := Thread(table, t);
    ThreadIsOrdered(table, t);
    hide Thread, TimeOf, Newest, Ordered, UpTo;
    if before.Some? && before.value != "" {
      var at := TimeOf(table, before.value);
      if at.Some? {
        UpToIsPrefix(rows, at.value - 1);
        NewestOfPrefix(rows, CountUpTo(rows, at.value - 1), limit);
      }
    } else {
      assert rows[..|rows|] == rows;
      NewestOfPrefix(rows, |rows|, limit);
    }
  }

  // The next request goes on before every row that shares the timestamp of the page's oldest row.
  lemma PageShrinks(table: seq<Message>, t: string, limit: nat, before: Option<Id>)
    requires UniqueIds(table) && forall m :: m in table ==> m.id != ""
    requires limit > 0 && End(table, t, before) > 0
    ensures var rows, e, page := Thread(table, t), End(table, t, before), GetMessages(table, t, limit, before);
            && e <= |rows| && page != []
            && var lo := e - Min(limit, e);
            && page == rows[lo..e]
            && page[0] == rows[lo]
            && End(table, t, Some(rows[lo].id)) <= lo
            && (lo > 0 ==> (End(table, t, Some(rows[lo].id)) == lo <==> rows[lo - 1].at != rows[lo].at))
  {
    hide Thread, End, GetMessages, UniqueIds, CountUpTo;
    PageIsStretch(table, t, limit, before);
    var rows, e := Thread(table, t), End(table, t, before);
    var lo := e - Min(limit, e);
    assert GetMessages(table, t, limit, before)[0] == rows[lo];
    EndOfRow(table, t, lo);
    ThreadIsOrdered(table, t);
    CountBeforeTie(rows, lo);
  }

  lemma EndOfRow(table: seq<Message>, t: string, k: nat)
    requires UniqueIds(table) && forall m :: m in table ==> m.id != ""
    requires k < |Thread(table, t)|
    ensures End(table, t, Some(Thread(table, t)[k].id)) == CountUpTo(Thread(table, t), Thread(table, t)[k].at - 1)
  {
    hide Thread, TimeOf, UniqueIds, CountUpTo;
    var m := Thread(table, t)[k];
    ThreadMembers(table, t, m);
    TimeOfRow(table, m);
  }

  // The rows earlier than row k are those before it, unless the row before it shares its timestamp.
  lemma CountBeforeTie(rows: seq<Message>, k: nat)
    requires Ordered(rows) && k < |rows|
    ensures CountUpTo(rows, rows[k].at - 1) <= k
    ensures k > 0 ==> (CountUpTo(rows, rows[k].at - 1) == k <==> rows[k - 1].at != rows[k].at)
  {
    UpToIsPrefix(rows, rows[k].at - 1);
    hide CountUpTo;
    assert k > 0 ==> rows[k - 1].at <= rows[k].at;
  }

  // Reading a thread page by page, each time passing the id of the oldest row of the last page.
  function ReadBack(table: seq<Message>, t: string, limit: nat, before: Option<Id>): seq<Message>
    requires UniqueIds(table) && forall m :: m in table ==> m.id != ""
    requires limit > 0
    decreases End(table, t, before)
  {
    var page := GetMessages(table, t, limit, before);
    if End(table, t, before) == 0 || page == [] then page
    else
      PageShrinks(table, t, limit, before);
      ReadBack(table, t, limit, Some(page[0].id)) + page
  }

  // No two rows with one timestamp stand on either side of a page boundary; boundaries stand every
  // `limit` rows, counted from row e back.
  predicate NoBoundaryTie(rows: seq<Message>, limit: nat, e: nat)
    requires limit > 0 && e <= |rows|
  {
    e <= limit || (rows[e - limit - 1].at != rows[e - limit].at && NoBoundaryTie(rows, limit, e - limit))
  }

  lemma ReadBackStep(table: seq<Message>, t: string, limit: nat, before: Option<Id>)
    requires UniqueIds(table) && forall m :: m in table ==> m.id != ""
    requires limit > 0
    ensures var rows, e := Thread(table, t), End(table, t, before);
            && e <= |rows|
            && (e == 0 ==> ReadBack(table, t, limit, before) == [])
            && (e > 0 ==>
                  var lo := e - Min(limit, e);
                  ReadBack(table, t, limit, before) == ReadBack(table, t, limit, Some(rows[lo].id)) + rows[lo..e])
  {
    hide Thread, TimeOf, GetMessages, UniqueIds, CountUpTo;
    PageIsStretch(table, t, limit, before);
    if End(table, t, before) > 0 {
      PageShrinks(table, t, limit, before);
    }
  }

  // The pages put together are all the rows exactly when no page boundary separates equal timestamps.
  lemma {:induction false} ReadsBackIff(table: seq<Message>, t: string, limit: nat, before: Option<Id>)
    requires UniqueIds(table) && forall m :: m in table ==> m.id != ""
    requires limit > 0
    ensures var rows, e, read := Thread(table, t), End(table, t, before), ReadBack(table, t, limit, before);
            && |read| <= e <= |rows|
            && (read == rows[..e] <==> NoBoundaryTie(rows, limit, e))
    decreases End(table, t, before)
  {
    var rows, e := Thread(table, t), End(table, t, before);
    ReadBackStep(table, t, limit, before);
    hide Thread, End, ReadBack, UniqueIds, CountUpTo, NoBoundaryTie, GetMessages;
    if e == 0 {
      NoBoundaryAtAll(rows, limit);
    } else {
      PageShrinks(table, t, limit, before);
      var lo := e - Min(limit, e);
      var next := Some(rows[lo].id);
      ReadsBackIff(table, t, limit, next);
      BoundaryStep(rows, limit, e, End(table, t, next), ReadBack(table, t, limit, next));
    }
  }

  lemma NoBoundaryAtAll(rows: seq<Message>, limit: nat)
    requires limit > 0
    ensures NoBoundaryTie(rows, limit, 0) && rows[..0] == []
  {
  }

  // One page in front of what the later pages read.
  lemma NextBoundary(rows: seq<Message>, limit: nat, e: nat)
    requires limit > 0 && 0 < e <= |rows|
    ensures var lo := e - Min(limit, e);
            NoBoundaryTie(rows, limit, e) <==>
              lo == 0 || (rows[lo - 1].at != rows[lo].at && NoBoundaryTie(rows, limit, lo))
  {
  }

  lemma BoundaryStep(rows: seq<Message>, limit: nat, e: nat, e': nat, older: seq<Message>)
    requires limit > 0 && 0 < e <= |rows|
    requires var lo := e - Min(limit, e);
             e' <= lo && (lo > 0 ==> (e' == lo <==> rows[lo - 1].at != rows[lo].at))
    requires |older| <= e' && (older == rows[..e'] <==> NoBoundaryTie(rows, limit, e'))
    ensures var read := older + rows[e - Min(limit, e)..e];
            |read| <= e && (read == rows[..e] <==> NoBoundaryTie(rows, limit, e))
  {
    hide NoBoundaryTie;
    var lo := e - Min(limit, e);
    NextBoundary(rows, limit, e);
    SliceJoin(rows, lo, e);
    if |older| == lo {
      SamePrefix(older, rows[..lo], rows[lo..e]);
    } else {
      assert |older + rows[lo..e]| < e;
    }
  }

  lemma SamePrefix<T>(a: seq<T>, b: seq<T>, c: seq<T>)
    requires |a| == |b|
    ensures a + c == b + c <==> a == b
  {
    if a + c == b + c {
      forall i | 0 <= i < |a| ensures a[i] == b[i] {
        assert (a + c)[i] == (b + c)[i];
      }
    }
  }

  lemma SliceJoin<T>(s: seq<T>, a: nat, b: nat)
    requires a <= b <= |s|
    ensures s[..a] + s[a..b] == s[..b]
  {
  }

  lemma {:induction false} NoTiesNoBoundaryTie(rows: seq<Message>, limit: nat, e: nat)
    requires NoTies(rows) && limit > 0 && e <= |rows|
    ensures NoBoundaryTie(rows, limit, e)
  {
    if e > limit {
      assert rows[e - limit - 1].at != rows[e - limit].at;
      NoTiesNoBoundaryTie(rows, limit, e - limit);
    }
  }

  // Paging back from the newest row reads the thread exactly when no page boundary separates equal
  // timestamps; in particular when all timestamps differ.
  lemma PagesAreTheThread(table: seq<Message>, t: string, limit: nat)
    requires UniqueIds(table) && forall m :: m in table ==> m.id != ""
    requires limit > 0
    ensures var rows := Thread(table, t);
            && (ReadBack(table, t, limit, None) == rows <==> NoBoundaryTie(rows, limit, |rows|))
            && (NoTies(rows) ==> ReadBack(table, t, limit, None) == rows)
  {
    var rows := Thread(table, t);
    ReadsBackIff(table, t, limit, None);
    assert rows[..|rows|] == rows;
    if NoTies(rows) {
      NoTiesNoBoundaryTie(rows, limit, |rows|);
    }
  }

  // Whatever is read lies before the place where reading started.
  lemma {:induction false} ReadBackIsEarlier(table: seq<Message>, t: string, limit: nat, before: Option<Id>, m: Message)
    requires UniqueIds(table) && forall m :: m in table ==> m.id != ""
    requires limit > 0 && m in ReadBack(table, t, limit, before)
    ensures End(table, t, before) <= |Thread(table, t)|
    ensures m in Thread(table, t)[..End(table, t, before)]
    decreases End(table, t, before)
  {
    var rows, e := Thread(table, t), End(table, t, before);
    ReadBackStep(table, t, limit, before);
    hide Thread, End, ReadBack, UniqueIds, CountUpTo, GetMessages;
    PageShrinks(table, t, limit, before);
    var lo := e - Min(limit, e);
    if m in rows[lo..e] {
      InLonger(rows, lo, e, e, m);
    } else {
      var next := Some(rows[lo].id);
      ReadBackIsEarlier(table, t, limit, next, m);
      assert rows[..End(table, t, next)] == rows[0..End(table, t, next)];
      InLonger(rows, 0, End(table, t, next), e, m);
    }
  }

  lemma InLonger<T>(s: seq<T>, lo: nat, hi: nat, e: nat, x: T)
    requires lo <= hi <= e <= |s| && x in s[lo..hi]
    ensures x in s[..e]
  {
    var p :| 0 <= p < hi - lo && s[lo..hi][p] == x;
    assert s[..e][lo + p] == x;
  }

  // Two neighbours with one timestamp and a page that ends between them: the older one is not read
  // on any later page, whatever the page size.
  lemma TiesLoseRows(table: seq<Message>, t: string, k: nat, limit: nat)
    requires UniqueIds(table) && forall m :: m in table ==> m.id != ""
    requires limit > 0 && 0 < k < |Thread(table, t)|
    requires Thread(table, t)[k - 1].at == Thread(table, t)[k].at
    ensures Thread(table, t)[k - 1] !in ReadBack(table, t, limit, Some(Thread(table, t)[k].id))
  {
    hide Thread, UniqueIds, End, ReadBack;
    var rows := Thread(table, t);
    var before := Some(rows[k].id);
    EndBefore(table, t, k);
    if rows[k - 1] in ReadBack(table, t, limit, before) {
      ReadBackIsEarlier(table, t, limit, before, rows[k - 1]);
    }
  }

  // Reading before row k leaves only rows with an earlier timestamp.
  lemma EndBefore(table: seq<Message>, t: string, k: nat)
    requires UniqueIds(table) && forall m :: m in table ==> m.id != ""
    requires k < |Thread(table, t)|
    ensures var rows := Thread(table, t);
            var e := End(table, t, Some(rows[k].id));
            e <= |rows| && forall m :: m in rows[..e] ==> m.at < rows[k].at
  {
    hide Thread, UniqueIds, CountUpTo, End;
    var rows := Thread(table, t);
    EndOfRow(table, t, k);
    ThreadIsOrdered(table, t);
    UpToIsPrefix(rows, rows[k].at - 1);
  }

  // ------------------------------------------------------------ what goes wrong, on small tables

  // A table of one thread in time order is that thread.
  lemma {:induction false} ThreadAsIs(table: seq<Message>, t: string)
    requires Ordered(table) && forall m :: m in table ==> m.thread == t
    ensures Thread(table, t) == table
  {
    if table != [] {
      var init, last := table[..|table| - 1], table[|table| - 1];
      assert table == init + [last];
      ThreadAsIs(init, t);
    }
  }

  // Three rows with one timestamp, and a range of one row: the first row is not in its own window.
  lemma MatchOutsideItsWindow()
    ensures var table := [HybridRecall.Message("a", "t", 0, ""), HybridRecall.Message("b", "t", 0, ""),
                          HybridRecall.Message("c", "t", 0, "")];
            table[0] !in Window(table, table[0], 1)
  {
    var table := [HybridRecall.Message("a", "t", 0, ""), HybridRecall.Message("b", "t", 0, ""),
                  HybridRecall.Message("c", "t", 0, "")];
    assert table[0].id[0] != table[1].id[0] && table[0].id[0] != table[2].id[0] && table[1].id[0] != table[2].id[0];
    ThreadAsIs(table, "t");
    hide Thread, Window;
    MatchInWindow(table, 0, "t", 1);
  }

  function ThreeRows(): seq<Message> {
    [HybridRecall.Message("a", "t", 0, ""), HybridRecall.Message("bb", "t", 1, ""),
     HybridRecall.Message("ccc", "t", 2, "")]
  }

  lemma ThreeRowsDiffer()
    ensures |ThreeRows()| == 3 && UniqueIds(ThreeRows()) && NoTies(ThreeRows()) && Ordered(ThreeRows())
  {
    var table := ThreeRows();
    forall i | 0 <= i < 3 ensures |table[i].id| == i + 1 && table[i].at == i {
      assert i == 0 || i == 1 || i == 2;
    }
    hide ThreeRows;
  }

  lemma ThreeRowsAreAThread()
    ensures Thread(ThreeRows(), "t") == ThreeRows()
  {
    hide Thread, Ordered;
    ThreeRowsDiffer();
    ThreadAsIs(ThreeRows(), "t");
  }

  // The first and the last of three rows match, range one: the early return loses the last row.
  lemma EarlyReturnLosesRow()
    ensures |ThreeRows()| == 3
    ensures var table := ThreeRows();
            Dedup(Windows(table, [table[0], table[2]], 1)) != Dedup(Window(table, table[0], 1))
  {
    hide *;
    ThreeRowsDiffer();
    ThreeRowsAreAThread();
    var table := ThreeRows();
    var matches := [table[0], table[2]];
    StretchIsCentred(table, "t", 0, 1);
    StretchIsCentred(table, "t", 2, 1);
    FirstDoesNotCover(table, matches[0], matches[1]);
    EarlyReturnIsComplete(table, matches, 1);
  }

  lemma FirstDoesNotCover(table: seq<Message>, a: Message, b: Message)
    requires Stop(table, a, 1) == Min(3, 2) && Stop(table, b, 1) == Min(3, 4)
    ensures !Covers(table, a, b, 1)
  {
    hide Stop, Start;
  }

  // Two rows with one timestamp, read one row a page: the older one is lost.
  lemma PagingLosesRow()
    ensures var table := [HybridRecall.Message("a", "t", 0, ""), HybridRecall.Message("b", "t", 0, "")];
            && UniqueIds(table)
            && (forall m :: m in table ==> m.id != "")
            && ReadBack(table, "t", 1, None) != Thread(table, "t")
  {
    var table := [HybridRecall.Message("a", "t", 0, ""), HybridRecall.Message("b", "t", 0, "")];
    assert table[0].id[0] != table[1].id[0];
    ThreadAsIs(table, "t");
    hide Thread, ReadBack;
    PagesAreTheThread(table, "t", 1);
    assert !NoBoundaryTie(table, 1, 2);
  }
}
