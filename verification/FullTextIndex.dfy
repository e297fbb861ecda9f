// The full-text indexes and their sync triggers (backend/app/db/schema.py, backend/app/db/migrations.py).
//
// The index is a multiset of postings: word `word` stands at place `place` of column `column` of
// row `row`.  The 'delete' command removes the postings of the values it is given, which need not
// be the values that were indexed.
module FullTextIndex {
  import opened Prelude

  datatype Posting = Posting(row: int, column: nat, place: nat, word: string)

  type Index = multiset<Posting>

  // The tokenizer.
  type Tokens = string -> seq<string>

  // The indexed columns of a row; NULL is indexed as the empty string.
  type Document = seq<string>

  function PostingsOf(tokens: Tokens, row: int, doc: Document): set<Posting> {
    set c, p | 0 <= c < |doc| && 0 <= p < |tokens(doc[c])| :: Posting(row, c, p, tokens(doc[c])[p])
  }

  // INSERT INTO fts(rowid, ...) VALUES ...
  function Add(tokens: Tokens, index: Index, row: int, doc: Document): Index {
    index + multiset(PostingsOf(tokens, row, doc))
  }

  // INSERT INTO fts(fts, rowid, ...) VALUES ('delete', ...)
  function Remove(tokens: Tokens, index: Index, row: int, doc: Document): Index {
    index - multiset(PostingsOf(tokens, row, doc))
  }

  // The postings of a whole table.
  function AllPostings(tokens: Tokens, docs: map<int, Document>): set<Posting> {
    set r, p | r in docs && p in PostingsOf(tokens, r, docs[r]) :: p
  }

  // The index rebuilt from the table.
  function Rebuilt(tokens: Tokens, docs: map<int, Document>): Index { multiset(AllPostings(tokens, docs)) }

  ghost predicate InSync(tokens: Tokens, index: Index, docs: map<int, Document>) {
    index == Rebuilt(tokens, docs)
  }

  lemma PostingsName(tokens: Tokens, row: int, doc: Document)
    ensures forall p :: p in PostingsOf(tokens, row, doc) ==> p.row == row
  {
  }

  lemma AllPostingsWrite(tokens: Tokens, docs: map<int, Document>, row: int, doc: Document)
    ensures AllPostings(tokens, docs[row := doc]) == AllPostings(tokens, docs - {row}) + PostingsOf(tokens, row, doc)
    ensures AllPostings(tokens, docs - {row}) !! PostingsOf(tokens, row, doc)
  {
    var docs' := docs[row := doc];
    forall p | p in AllPostings(tokens, docs - {row}) ensures p.row != row && p in AllPostings(tokens, docs') {
      var r :| r in docs - {row} && p in PostingsOf(tokens, r, (docs - {row})[r]);
      PostingsName(tokens, r, docs[r]);
      assert r in docs' && docs'[r] == docs[r];
    }
    PostingsName(tokens, row, doc);
    forall p | p in AllPostings(tokens, docs')
      ensures p in AllPostings(tokens, docs - {row}) + PostingsOf(tokens, row, doc)
    {
      var r :| r in docs' && p in PostingsOf(tokens, r, docs'[r]);
      if r != row {
        assert r in docs - {row} && (docs - {row})[r] == docs'[r];
      }
    }
    forall p | p in PostingsOf(tokens, row, doc) ensures p in AllPostings(tokens, docs') {
      assert docs'[row] == doc;
    }
  }

  lemma AddKeepsSync(tokens: Tokens, index: Index, docs: map<int, Document>, row: int, doc: Document)
    requires InSync(tokens, index, docs) && row !in docs
    ensures InSync(tokens, Add(tokens, index, row, doc), docs[row := doc])
  {
    AllPostingsWrite(tokens, docs, row, doc);
    assert docs - {row} == docs;
  }

  lemma RemoveKeepsSync(tokens: Tokens, index: Index, docs: map<int, Document>, row: int)
    requires InSync(tokens, index, docs) && row in docs
    ensures InSync(tokens, Remove(tokens, index, row, docs[row]), docs - {row})
  {
    AllPostingsWrite(tokens, docs, row, docs[row]);
    assert docs[row := docs[row]] == docs;
  }

  // ------------------------------------------------------------ runs of row changes

  // fires: whether the update trigger runs.
  datatype Op =
    | Insert(row: int, doc: Document)
    | Update(row: int, doc: Document, fires: bool)
    | Delete(row: int)

  datatype State = State(docs: map<int, Document>, index: Index)

  // INSERT picks an unused row id; UPDATE and DELETE of an absent row change nothing.
  predicate Possible(s: State, op: Op) { op.Insert? ==> op.row !in s.docs }

  function Apply(tokens: Tokens, s: State, op: Op): State {
    match op
    case Insert(r, d) => State(s.docs[r := d], Add(tokens, s.index, r, d))
    case Update(r, d, fires) =>
      if r !in s.docs then s
      else State(s.docs[r := d], if fires then Add(tokens, Remove(tokens, s.index, r, s.docs[r]), r, d) else s.index)
    case Delete(r) =>
      if r !in s.docs then s else State(s.docs - {r}, Remove(tokens, s.index, r, s.docs[r]))
  }

  // The words of the row are the same before and after.
  ghost predicate SameWords(tokens: Tokens, a: Document, b: Document) {
    |a| == |b| && forall c :: 0 <= c < |a| ==> tokens(a[c]) == tokens(b[c])
  }

  // Either the trigger sees the change or there is nothing for it to see.
  ghost predicate Safe(tokens: Tokens, s: State, op: Op) {
    op.Update? && op.row in s.docs && !op.fires ==> SameWords(tokens, s.docs[op.row], op.doc)
  }

  lemma PostingsShowWords(tokens: Tokens, row: int, a: Document, b: Document)
    requires |a| == |b|
    ensures PostingsOf(tokens, row, a) == PostingsOf(tokens, row, b) <==> SameWords(tokens, a, b)
  {
    if PostingsOf(tokens, row, a) == PostingsOf(tokens, row, b) {
      forall c | 0 <= c < |a| ensures tokens(a[c]) == tokens(b[c]) {
        ColumnShown(tokens, row, a, b, c);
        ColumnShown(tokens, row, b, a, c);
      }
    }
  }

  lemma ColumnShown(tokens: Tokens, row: int, a: Document, b: Document, c: nat)
    requires c < |a| == |b|
    requires PostingsOf(tokens, row, a) <= PostingsOf(tokens, row, b)
    ensures tokens(a[c]) <= tokens(b[c])
  {
    var x, y := tokens(a[c]), tokens(b[c]);
    if |y| < |x| {
      LongerColumnShows(tokens, row, a, b, c);
    }
    forall p | 0 <= p < |x| ensures p < |y| && x[p] == y[p] {
      assert Posting(row, c, p, x[p]) in PostingsOf(tokens, row, a);
    }
    assert x == y[..|x|];
  }

  // A column with more words than the other shows a posting the other lacks.
  lemma LongerColumnShows(tokens: Tokens, row: int, a: Document, b: Document, c: nat)
    requires c < |a| == |b| && |tokens(b[c])| < |tokens(a[c])|
    ensures !(PostingsOf(tokens, row, a) <= PostingsOf(tokens, row, b))
  {
    var k := |tokens(b[c])|;
    var p := Posting(row, c, k, tokens(a[c])[k]);
    assert p in PostingsOf(tokens, row, a) && p !in PostingsOf(tokens, row, b);
  }

  // One change keeps the index in sync exactly when it is safe.
  lemma SyncKeptIffSafe(tokens: Tokens, s: State, op: Op)
    requires InSync(tokens, s.index, s.docs) && Possible(s, op)
    requires op.Update? && op.row in s.docs ==> |op.doc| == |s.docs[op.row]|
    ensures var s' := Apply(tokens, s, op); InSync(tokens, s'.index, s'.docs) <==> Safe(tokens, s, op)
  {
    match op
    case Insert(r, d) => AddKeepsSync(tokens, s.index, s.docs, r, d);
    case Delete(r) =>
      if r in s.docs {
        RemoveKeepsSync(tokens, s.index, s.docs, r);
      }
    case Update(r, d, fires) =>
      if r in s.docs {
        if fires {
          RemoveKeepsSync(tokens, s.index, s.docs, r);
          AddKeepsSync(tokens, Remove(tokens, s.index, r, s.docs[r]), s.docs - {r}, r, d);
          assert (s.docs - {r})[r := d] == s.docs[r := d];
        } else {
          UnseenUpdate(tokens, s.docs, r, d);
        }
      }
  }

  lemma UnseenUpdate(tokens: Tokens, docs: map<int, Document>, r: int, d: Document)
    requires r in docs && |d| == |docs[r]|
    ensures Rebuilt(tokens, docs) == Rebuilt(tokens, docs[r := d]) <==> SameWords(tokens, docs[r], d)
  {
    var rest := AllPostings(tokens, docs - {r});
    AllPostingsWrite(tokens, docs, r, docs[r]);
    assert docs[r := docs[r]] == docs;
    AllPostingsWrite(tokens, docs, r, d);
    PostingsShowWords(tokens, r, docs[r], d);
    var a, b := PostingsOf(tokens, r, docs[r]), PostingsOf(tokens, r, d);
    SetsFromMultisets(rest + a, rest + b);
    assert rest + a == rest + b ==> a == b by {
      forall p | rest + a == rest + b ensures p in a <==> p in b {
        assert p in rest + a <==> p in rest + b;
      }
    }
  }

  lemma SetsFromMultisets(a: set<Posting>, b: set<Posting>)
    ensures multiset(a) == multiset(b) <==> a == b
  {
    if multiset(a) == multiset(b) {
      forall p ensures p in a <==> p in b {
        assert p in multiset(a) <==> p in multiset(b);
      }
    }
  }

  // After any run of safe changes the index is the one rebuilt from the table.
  lemma {:induction false} SafeRunsKeepSync(tokens: Tokens, states: seq<State>, ops: seq<Op>)
    requires |states| == |ops| + 1 && InSync(tokens, states[0].index, states[0].docs)
    requires forall i :: 0 <= i < |ops| ==>
      && states[i + 1] == Apply(tokens, states[i], ops[i])
      && Possible(states[i], ops[i]) && Safe(tokens, states[i], ops[i]) && KeepsWidth(states[i], ops[i])
    ensures InSync(tokens, states[|ops|].index, states[|ops|].docs)
  {
    if ops != [] {
      var n := |ops| - 1;
      SafeRunsKeepSync(tokens, states[..n + 1], ops[..n]);
      SyncKeptIffSafe(tokens, states[n], ops[n]);
    }
  }

  // An update does not change the number of indexed columns.
  predicate KeepsWidth(s: State, op: Op) {
    op.Update? && op.row in s.docs ==> |op.doc| == |s.docs[op.row]|
  }

  // How often p stands in the table: 0 or 1.
  ghost function Due(tokens: Tokens, docs: map<int, Document>, p: Posting): nat {
    if p in AllPostings(tokens, docs) then 1 else 0
  }

  lemma DueOfWrite(tokens: Tokens, docs: map<int, Document>, r: int, d: Document, p: Posting)
    ensures Due(tokens, docs[r := d], p) == Due(tokens, docs - {r}, p) +
              if p in PostingsOf(tokens, r, d) then 1 else 0
  {
    AllPostingsWrite(tokens, docs, r, d);
  }

  // A posting that stands in the index more often than in the table is never removed again by
  // safe changes, not even when its row is deleted.
  lemma OrphanSurvives(tokens: Tokens, s: State, op: Op, p: Posting)
    requires Possible(s, op) && Safe(tokens, s, op) && KeepsWidth(s, op)
    requires s.index[p] > Due(tokens, s.docs, p)
    ensures Apply(tokens, s, op).index[p] > Due(tokens, Apply(tokens, s, op).docs, p)
  {
    var r := op.row;
    if r in s.docs {
      DueOfWrite(tokens, s.docs, r, s.docs[r], p);
      assert s.docs[r := s.docs[r]] == s.docs;
    } else {
      assert s.docs - {r} == s.docs;
    }
    if !op.Delete? {
      DueOfWrite(tokens, s.docs, r, op.doc, p);
    }
    hide Due;
    if op.Update? && r in s.docs {
      PostingsShowWords(tokens, r, s.docs[r], op.doc);
    }
    hide PostingsOf;
  }

  // ------------------------------------------------------------ bulk operations of the migrations

  // INSERT INTO fts SELECT ... FROM table: right from an empty index and from no other.
  lemma BulkFill(tokens: Tokens, index: Index, docs: map<int, Document>)
    ensures InSync(tokens, index + Rebuilt(tokens, docs), docs) <==> index == multiset{}
  {
    if index != multiset{} {
      var p :| p in index;
      assert (index + Rebuilt(tokens, docs))[p] == index[p] + Rebuilt(tokens, docs)[p];
    }
  }

  // Running the fill again (its body commits before it is recorded) breaks an index in sync,
  // unless the table has no words at all.
  lemma BulkFillTwice(tokens: Tokens, index: Index, docs: map<int, Document>)
    requires InSync(tokens, index, docs)
    ensures InSync(tokens, index + Rebuilt(tokens, docs), docs) <==> AllPostings(tokens, docs) == {}
  {
    BulkFill(tokens, index, docs);
    if AllPostings(tokens, docs) != {} {
      var p :| p in AllPostings(tokens, docs);
      assert p in index;
    }
  }

  // Giving a row with words another id while the index stays breaks the index.
  lemma RenumberingBreaksSync(tokens: Tokens, index: Index, docs: map<int, Document>, r: int, r': int)
    requires InSync(tokens, index, docs) && r in docs && r' !in docs
    requires PostingsOf(tokens, r, docs[r]) != {}
    ensures !InSync(tokens, index, (docs - {r})[r' := docs[r]])
  {
    var p :| p in PostingsOf(tokens, r, docs[r]);
    PostingsName(tokens, r, docs[r]);
    var docs' := (docs - {r})[r' := docs[r]];
    assert p in AllPostings(tokens, docs);
    forall q | q in AllPostings(tokens, docs') ensures q.row != r {
      var x :| x in docs' && q in PostingsOf(tokens, x, docs'[x]);
      PostingsName(tokens, x, docs'[x]);
    }
    assert p !in AllPostings(tokens, docs');
    assert p in multiset(AllPostings(tokens, docs)) && p !in multiset(AllPostings(tokens, docs'));
  }

  // ------------------------------------------------------------ the two indexed tables

  function Coalesce(text: Option<string>): string { if text.Some? then text.value else "" }

  datatype LogRow = LogRow(stdout: Option<string>, stderr: Option<string>, prompt: Option<string>, status: string)

  // The SET list of an UPDATE: which columns it names, and their new values.
  datatype LogChange = LogChange(stdout: Option<Option<string>>, stderr: Option<Option<string>>,
                                 prompt: Option<Option<string>>, status: Option<string>)

  function LogDocument(row: LogRow): Document { [Coalesce(row.stdout), Coalesce(row.stderr), Coalesce(row.prompt)] }

  function Changed(row: LogRow, change: LogChange): LogRow {
    LogRow(if change.stdout.Some? then change.stdout.value else row.stdout,
           if change.stderr.Some? then change.stderr.value else row.stderr,
           if change.prompt.Some? then change.prompt.value else row.prompt,
           if change.status.Some? then change.status.value else row.status)
  }

  // AFTER UPDATE OF stdout_log, stderr_log: fires when the SET list names one of them.
  predicate FiresOn(change: LogChange) { change.stdout.Some? || change.stderr.Some? }

  function LogDocuments(rows: map<int, LogRow>): map<int, Document> { map r | r in rows :: LogDocument(rows[r]) }

  function MessageDocuments(contents: map<int, string>): map<int, Document> { map r | r in contents :: [contents[r]] }

  lemma LogWords(tokens: Tokens, before: LogRow, after: LogRow)
    ensures SameWords(tokens, LogDocument(before), LogDocument(after)) <==>
      && tokens(Coalesce(before.stdout)) == tokens(Coalesce(after.stdout))
      && tokens(Coalesce(before.stderr)) == tokens(Coalesce(after.stderr))
      && tokens(Coalesce(before.prompt)) == tokens(Coalesce(after.prompt))
  {
    var a, b := LogDocument(before), LogDocument(after);
    if SameWords(tokens, a, b) {
      assert tokens(a[0]) == tokens(b[0]) && tokens(a[1]) == tokens(b[1]) && tokens(a[2]) == tokens(b[2]);
    }
  }

  lemma LogUpdate(tokens: Tokens, rows: map<int, LogRow>, index: Index, id: int, change: LogChange)
    requires id in rows
    ensures
      var after := Changed(rows[id], change);
      var index' := if FiresOn(change)
                    then Add(tokens, Remove(tokens, index, id, LogDocument(rows[id])), id, LogDocument(after))
                    else index;
      InSync(tokens, index, LogDocuments(rows)) ==>
        (InSync(tokens, index', LogDocuments(rows[id := after])) <==>
           FiresOn(change) || tokens(Coalesce(rows[id].prompt)) == tokens(Coalesce(after.prompt)))
  {
    var s := State(LogDocuments(rows), index);
    var after := Changed(rows[id], change);
    assert LogDocuments(rows[id := after]) == s.docs[id := LogDocument(after)];
    if InSync(tokens, s.index, s.docs) {
      SyncKeptIffSafe(tokens, s, Op.Update(id, LogDocument(after), FiresOn(change)));
      LogWords(tokens, rows[id], after);
    }
  }

  lemma MessageUpdate(tokens: Tokens, contents: map<int, string>, index: Index, id: int, content: string)
    requires id in contents
    ensures
      var index' := Add(tokens, Remove(tokens, index, id, [contents[id]]), id, [content]);
      InSync(tokens, index, MessageDocuments(contents)) ==>
        InSync(tokens, index', MessageDocuments(contents[id := content]))
  {
    var s := State(MessageDocuments(contents), index);
    assert MessageDocuments(contents[id := content]) == s.docs[id := [content]];
    if InSync(tokens, s.index, s.docs) {
      SyncKeptIffSafe(tokens, s, Op.Update(id, [content], true));
    }
  }

  // Word p.word stands at that place of output (0), error output (1) or prompt (2) of row p.row.
  ghost predicate InLog(tokens: Tokens, rows: map<int, LogRow>, p: Posting) {
    && p.row in rows && p.column < 3
    && var column := [rows[p.row].stdout, rows[p.row].stderr, rows[p.row].prompt][p.column];
    && var words := tokens(if column == None then "" else column.value);
    && p.place < |words| && words[p.place] == p.word
  }

  ghost predicate InMessage(tokens: Tokens, contents: map<int, string>, p: Posting) {
    && p.row in contents && p.column == 0
    && p.place < |tokens(contents[p.row])| && tokens(contents[p.row])[p.place] == p.word
  }

  // An index is in sync exactly when it has each word of the table at its place, once, and no other.
  lemma SyncedIff(tokens: Tokens, index: Index, docs: map<int, Document>)
    ensures InSync(tokens, index, docs) <==> forall p :: index[p] == if p in AllPostings(tokens, docs) then 1 else 0
  {
    var all := AllPostings(tokens, docs);
    hide AllPostings;
    if forall p :: index[p] == if p in all then 1 else 0 {
      assert forall p :: index[p] == multiset(all)[p];
      assert index == multiset(all);
    }
  }

  lemma PostingsHave(tokens: Tokens, row: int, doc: Document, p: Posting)
    requires p.column < |doc| && p.place < |tokens(doc[p.column])|
    requires p.row == row && tokens(doc[p.column])[p.place] == p.word
    ensures p in PostingsOf(tokens, row, doc)
  {
    assert p == Posting(row, p.column, p.place, tokens(doc[p.column])[p.place]);
  }

  lemma LogPostings(tokens: Tokens, rows: map<int, LogRow>, p: Posting)
    ensures p in AllPostings(tokens, LogDocuments(rows)) <==> InLog(tokens, rows, p)
  {
    var docs := LogDocuments(rows);
    if InLog(tokens, rows, p) {
      PostingsHave(tokens, p.row, docs[p.row], p);
    }
  }

  lemma MessagePostings(tokens: Tokens, contents: map<int, string>, p: Posting)
    ensures p in AllPostings(tokens, MessageDocuments(contents)) <==> InMessage(tokens, contents, p)
  {
    var docs := MessageDocuments(contents);
    if InMessage(tokens, contents, p) {
      PostingsHave(tokens, p.row, docs[p.row], p);
    }
  }

  lemma LogIndexIs(tokens: Tokens, index: Index, rows: map<int, LogRow>)
    ensures InSync(tokens, index, LogDocuments(rows)) <==>
              forall p :: index[p] == if InLog(tokens, rows, p) then 1 else 0
  {
    SyncedIff(tokens, index, LogDocuments(rows));
    hide *;
    forall p ensures p in AllPostings(tokens, LogDocuments(rows)) <==> InLog(tokens, rows, p) {
      LogPostings(tokens, rows, p);
    }
  }

  lemma MessageIndexIs(tokens: Tokens, index: Index, contents: map<int, string>)
    ensures InSync(tokens, index, MessageDocuments(contents)) <==>
              forall p :: index[p] == if InMessage(tokens, contents, p) then 1 else 0
  {
    SyncedIff(tokens, index, MessageDocuments(contents));
    hide *;
    forall p ensures p in AllPostings(tokens, MessageDocuments(contents)) <==> InMessage(tokens, contents, p) {
      MessagePostings(tokens, contents, p);
    }
  }

  // Table execution_logs, by id.
  class ExecutionLogs {
    const tokens: Tokens
    var rows: map<int, LogRow>
    var index: Index

    constructor (tokens: Tokens)
      ensures this.tokens == tokens && rows == map[] && index == multiset{} && Synced()
    {
      this.tokens := tokens;
      rows, index := map[], multiset{};
      new;
      assert AllPostings(tokens, LogDocuments(map[])) == {};
    }

    ghost function Docs(): map<int, Document>
      reads this
    {
      LogDocuments(rows)
    }

    ghost predicate Synced()
      reads this
    {
      InSync(tokens, index, Docs())
    }

    method Insert(id: int, row: LogRow)
      requires id !in rows
      modifies this`rows, this`index
      ensures rows == old(rows)[id := row]
      ensures index == Add(tokens, old(index), id, LogDocument(row))
      ensures old(Synced()) ==> Synced()
    {
      ghost var s := State(Docs(), index);
      rows := rows[id := row];
      index := Add(tokens, index, id, LogDocument(row));
      assert Docs() == s.docs[id := LogDocument(row)];
      if InSync(tokens, s.index, s.docs) {
        SyncKeptIffSafe(tokens, s, Op.Insert(id, LogDocument(row)));
      }
    }

    // The index stays in sync exactly when the trigger fires or the prompt's words do not change.
    method Update(id: int, change: LogChange) returns (found: bool)
      modifies this`rows, this`index
      ensures found == (id in old(rows))
      ensures !found ==> rows == old(rows) && index == old(index)
      ensures found ==> var row := old(rows)[id];
        rows == old(rows)[id := LogRow(if change.stdout.Some? then change.stdout.value else row.stdout,
                                       if change.stderr.Some? then change.stderr.value else row.stderr,
                                       if change.prompt.Some? then change.prompt.value else row.prompt,
                                       if change.status.Some? then change.status.value else row.status)]
      ensures found && !FiresOn(change) ==> index == old(index)
      ensures found && FiresOn(change) ==>
        index == Add(tokens, Remove(tokens, old(index), id, LogDocument(old(rows)[id])), id, LogDocument(rows[id]))
      ensures old(Synced()) ==>
        (Synced() <==> !found || change.stdout != None || change.stderr != None
                       || tokens(Coalesce(rows[id].prompt)) == tokens(Coalesce(old(rows)[id].prompt)))
    {
      found := id in rows;
      if !found {
        return;
      }
      var before, after := rows[id], Changed(rows[id], change);
      LogUpdate(tokens, rows, index, id, change);
      rows := rows[id := after];
      if FiresOn(change) {
        index := Remove(tokens, index, id, LogDocument(before));
        index := Add(tokens, index, id, LogDocument(after));
      }
    }

    method Delete(id: int) returns (found: bool)
      modifies this`rows, this`index
      ensures found == (id in old(rows))
      ensures rows == old(rows) - {id}
      ensures index == if found then Remove(tokens, old(index), id, LogDocument(old(rows)[id])) else old(index)
      ensures old(Synced()) ==> Synced()
    {
      found := id in rows;
      if found {
        ghost var s := State(Docs(), index);
        index := Remove(tokens, index, id, LogDocument(rows[id]));
        rows := rows - {id};
        assert Docs() == s.docs - {id};
        if InSync(tokens, s.index, s.docs) {
          SyncKeptIffSafe(tokens, s, Op.Delete(id));
        }
      } else {
        assert rows - {id} == rows;
      }
    }

    // The bulk INSERT of migration 72.
    method FillIndex()
      modifies this`index
      ensures index == old(index) + Rebuilt(tokens, Docs())
      ensures Synced() <==> old(index) == multiset{}
    {
      index := index + Rebuilt(tokens, LogDocuments(rows));
      BulkFill(tokens, old(index), Docs());
    }

    // The table rebuild of migration 76: rows are copied with their ids into a table that has no
    // triggers yet, which then takes the old one's place.
    method RebuildTable()
      modifies this`rows
      ensures rows == old(rows)
      ensures old(Synced()) ==> Synced()
    {
      var copy: map<int, LogRow> := map[];
      var todo := rows.Keys;
      while todo != {}
        invariant todo <= rows.Keys
        invariant rows == old(rows) && copy == rows - todo
        decreases todo
      {
        ghost var some := Member(todo);
        var id :| id in todo;
        copy := copy[id := rows[id]];
        todo := todo - {id};
      }
      assert copy == rows - {} == rows;
      rows := copy;
    }
  }

  // ------------------------------------------------------------ what goes wrong, on one row

  // A token function that takes each nonempty text as one word.
  function Whole(text: string): seq<string> { if text == "" then [] else [text] }

  // An update of the prompt alone leaves the old word in the index.
  lemma PromptUpdateGoesStale()
    ensures var rows := map[1 := LogRow(None, None, Some("old"), "running")];
            var change := LogChange(None, None, Some(Some("newer")), None);
            var index := Rebuilt(Whole, LogDocuments(rows));
            !FiresOn(change) && !InSync(Whole, index, LogDocuments(rows[1 := Changed(rows[1], change)]))
  {
    var rows := map[1 := LogRow(None, None, Some("old"), "running")];
    var change := LogChange(None, None, Some(Some("newer")), None);
    LogUpdate(Whole, rows, Rebuilt(Whole, LogDocuments(rows)), 1, change);
    assert |"old"| != |"newer"|;
    assert Whole("old")[0] != Whole("newer")[0];
  }

  // Filling the index a second time leaves two postings for the one word.
  lemma SecondFillDoubles()
    ensures var docs := map[1 := ["word"]];
            var index := Rebuilt(Whole, docs);
            (index + Rebuilt(Whole, docs))[Posting(1, 0, 0, "word")] == 2 &&
            !InSync(Whole, index + Rebuilt(Whole, docs), docs)
  {
    var docs := map[1 := ["word"]];
    var p := Posting(1, 0, 0, "word");
    assert |"word"| == 4 && docs[1][0] == "word";
    assert Posting(1, 0, 0, Whole(docs[1][0])[0]) == p;
    assert p in PostingsOf(Whole, 1, docs[1]);
    assert p in AllPostings(Whole, docs);
    BulkFillTwice(Whole, Rebuilt(Whole, docs), docs);
  }

  // Table memory_messages, by rowid: its update trigger fires on every update.
  class MemoryMessages {
    const tokens: Tokens
    var contents: map<int, string>
    var index: Index

    constructor (tokens: Tokens)
      ensures this.tokens == tokens && contents == map[] && index == multiset{} && Synced()
    {
      this.tokens := tokens;
      contents, index := map[], multiset{};
      new;
      assert AllPostings(tokens, MessageDocuments(map[])) == {};
    }

    ghost function Docs(): map<int, Document>
      reads this
    {
      MessageDocuments(contents)
    }

    ghost predicate Synced()
      reads this
    {
      InSync(tokens, index, Docs())
    }

    method Insert(id: int, content: string)
      requires id !in contents
      modifies this`contents, this`index
      ensures contents == old(contents)[id := content]
      ensures index == Add(tokens, old(index), id, [content])
      ensures old(Synced()) ==> Synced()
    {
      ghost var s := State(Docs(), index);
      contents := contents[id := content];
      index := Add(tokens, index, id, [content]);
      assert Docs() == s.docs[id := [content]];
      if InSync(tokens, s.index, s.docs) {
        SyncKeptIffSafe(tokens, s, Op.Insert(id, [content]));
      }
    }

    method Update(id: int, content: string)
      modifies this`contents, this`index
      ensures contents == if id in old(contents) then old(contents)[id := content] else old(contents)
      ensures index == if id in old(contents)
                       then Add(tokens, Remove(tokens, old(index), id, [old(contents)[id]]), id, [content])
                       else old(index)
      ensures old(Synced()) ==> Synced()
    {
      if id in contents {
        MessageUpdate(tokens, contents, index, id, content);
        index := Remove(tokens, index, id, [contents[id]]);
        index := Add(tokens, index, id, [content]);
        contents := contents[id := content];
      }
    }

    method Delete(id: int)
      modifies this`contents, this`index
      ensures contents == old(contents) - {id}
      ensures index == if id in old(contents) then Remove(tokens, old(index), id, [old(contents)[id]]) else old(index)
      ensures old(Synced()) ==> Synced()
    {
      if id in contents {
        ghost var s := State(Docs(), index);
        index := Remove(tokens, index, id, [contents[id]]);
        contents := contents - {id};
        assert Docs() == s.docs - {id};
        if InSync(tokens, s.index, s.docs) {
          SyncKeptIffSafe(tokens, s, Op.Delete(id));
        }
      } else {
        assert contents - {id} == contents;
      }
    }
  }

}
