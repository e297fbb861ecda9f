// Tagged executions: the filtering query and the assignment table (backend/app/db/execution_tags.py).
module ExecutionTags {
  import opened Prelude
  import Text

  // One row of the join: a tag from the first join and one from the filter join, or NULL.
  datatype JoinRow = JoinRow(a: Option<string>, f: Option<string>)

  // A LEFT JOIN side: the matching rows, or a single NULL row.
  function Padded(tags: seq<string>): seq<Option<string>> {
    if tags == [] then [None] else seq(|tags|, i requires 0 <= i < |tags| => Some(tags[i]))
  }

  function RowsFor(a: Option<string>, fs: seq<Option<string>>): seq<JoinRow> {
    seq(|fs|, i requires 0 <= i < |fs| => JoinRow(a, fs[i]))
  }

  function Product(xs: seq<Option<string>>, fs: seq<Option<string>>): seq<JoinRow> {
    if xs == [] then [] else RowsFor(xs[0], fs) + Product(xs[1..], fs)
  }

  // The rows grouped under one execution with the assigned tags.
  function GroupRows(given: seq<string>, filtered: bool): seq<JoinRow> {
    Product(Padded(given), if filtered then Padded(given) else [None])
  }

  function Wanted(rows: seq<JoinRow>, requested: seq<string>): set<string> {
    set r | r in rows && r.f.Some? && r.f.value in requested :: r.f.value
  }

  // HAVING COUNT(DISTINCT CASE WHEN a_filter.tag_id IN (...) THEN a_filter.tag_id END) = n
  predicate Having(given: seq<string>, requested: seq<string>) {
    |Wanted(GroupRows(given, true), requested)| == |requested|
  }

  // The tags that GROUP_CONCAT(a.tag_id) concatenates.
  function Column(rows: seq<JoinRow>): seq<string> {
    if rows == [] then []
    else (if rows[0].a.Some? then [rows[0].a.value] else []) + Column(rows[1..])
  }

  // The tags list of a result: the concatenation split at commas, or no tags for NULL or "".
  function TagsList(given: seq<string>, filtered: bool): seq<string> {
    var csv := Text.Join(Column(GroupRows(given, filtered)), ',');
    if csv != "" then Text.Split(csv, ',') else []
  }

  ghost predicate PlainIds(tags: seq<string>) { forall t :: t in tags ==> t != "" && ',' !in t }

  // ------------------------------------------------------------ the filter

  lemma {:induction false} ProductMembers(xs: seq<Option<string>>, fs: seq<Option<string>>, r: JoinRow)
    ensures r in Product(xs, fs) <==> r.a in xs && r.f in fs
  {
    if xs != [] {
      ProductMembers(xs[1..], fs, r);
      RowsForMembers(xs[0], fs, r);
      assert xs == [xs[0]] + xs[1..];
    }
  }

  lemma RowsForMembers(a: Option<string>, fs: seq<Option<string>>, r: JoinRow)
    ensures r in RowsFor(a, fs) <==> r.a == a && r.f in fs
  {
    if r.a == a && r.f in fs {
      var i :| 0 <= i < |fs| && fs[i] == r.f;
      assert RowsFor(a, fs)[i] == r;
    }
  }

  lemma PaddedMembers(tags: seq<string>, t: string)
    ensures Some(t) in Padded(tags) <==> t in tags
    ensures Padded(tags) != []
  {
    if t in tags {
      var i :| 0 <= i < |tags| && tags[i] == t;
      assert Padded(tags)[i] == Some(t);
    }
  }

  // The counted tags are those both assigned and requested.
  lemma WantedIsIntersection(given: seq<string>, requested: seq<string>)
    ensures Wanted(GroupRows(given, true), requested) == Elems(given) * Elems(requested)
  {
    hide Padded, Product;
    var rows := GroupRows(given, true);
    forall t ensures t in Wanted(rows, requested) <==> t in given && t in requested {
      PaddedMembers(given, t);
      var first := Padded(given)[0];
      ProductMembers(Padded(given), Padded(given), JoinRow(first, Some(t)));
      if t in Wanted(rows, requested) {
        var r :| r in rows && r.f.Some? && r.f.value in requested && r.f.value == t;
        ProductMembers(Padded(given), Padded(given), r);
      } else {
        assert JoinRow(first, Some(t)) in rows ==> t !in requested;
      }
    }
  }

  // The join, group and count keep an execution exactly when the requested tags are distinct and
  // all of them are assigned to it.
  lemma FilterIsSubset(given: seq<string>, requested: seq<string>)
    ensures Having(given, requested) <==> Distinct(requested) && Elems(requested) <= Elems(given)
  {
    WantedIsIntersection(given, requested);
    hide Wanted, GroupRows;
    var both := Elems(given) * Elems(requested);
    SubsetCardinality(both, Elems(requested));
    CardinalityDistinct(requested);
    if Distinct(requested) {
      DistinctCardinality(requested);
      assert Elems(requested) <= Elems(given) ==> both == Elems(requested);
      assert both == Elems(requested) ==> Elems(requested) <= Elems(given);
    }
  }

  // ------------------------------------------------------------ the tags column

  lemma {:induction false} ColumnConcat(a: seq<JoinRow>, b: seq<JoinRow>)
    ensures Column(a + b) == Column(a) + Column(b)
  {
    if a == [] {
      assert a + b == b;
    } else {
      assert (a + b)[1..] == a[1..] + b;
      ColumnConcat(a[1..], b);
    }
  }

  function Repeated(t: string, n: nat): seq<string> { seq(n, i => t) }

  lemma {:induction false} ColumnRowsFor(a: Option<string>, fs: seq<Option<string>>)
    ensures Column(RowsFor(a, fs)) == if a.Some? then Repeated(a.value, |fs|) else []
  {
    if fs != [] {
      assert RowsFor(a, fs)[1..] == RowsFor(a, fs[1..]);
      ColumnRowsFor(a, fs[1..]);
    }
  }

  // The non-null entries, each n times in a row.
  function Blocks(xs: seq<Option<string>>, n: nat): seq<string> {
    if xs == [] then []
    else (if xs[0].Some? then Repeated(xs[0].value, n) else []) + Blocks(xs[1..], n)
  }

  lemma {:induction false} ColumnProduct(xs: seq<Option<string>>, fs: seq<Option<string>>)
    ensures Column(Product(xs, fs)) == Blocks(xs, |fs|)
  {
    if xs != [] {
      ColumnConcat(RowsFor(xs[0], fs), Product(xs[1..], fs));
      ColumnRowsFor(xs[0], fs);
      ColumnProduct(xs[1..], fs);
    }
  }

  lemma {:induction false} BlocksOfOne(tags: seq<string>)
    requires tags != []
    ensures Blocks(Padded(tags), 1) == tags
  {
    var xs := Padded(tags);
    assert Repeated(tags[0], 1) == [tags[0]];
    if |tags| == 1 {
      assert xs[1..] == [];
    } else {
      assert xs[1..] == Padded(tags[1..]);
      BlocksOfOne(tags[1..]);
    }
  }

  lemma {:induction false} BlocksCount(tags: seq<string>, n: nat, t: string)
    requires tags != [] && Distinct(tags)
    ensures multiset(Blocks(Padded(tags), n))[t] == if t in tags then n else 0
  {
    hide Repeated, Blocks, Padded;
    RepeatedCount(tags[0], n, t);
    BlocksFirst(tags, n);
    if |tags| > 1 {
      assert tags == [tags[0]] + tags[1..];
      BlocksCount(tags[1..], n, t);
    }
  }

  lemma BlocksFirst(tags: seq<string>, n: nat)
    requires tags != []
    ensures Blocks(Padded(tags), n) == Repeated(tags[0], n) + if |tags| == 1 then [] else Blocks(Padded(tags[1..]), n)
  {
    var xs := Padded(tags);
    if |tags| == 1 {
      assert xs[1..] == [];
    } else {
      assert xs[1..] == Padded(tags[1..]);
    }
  }

  lemma {:induction false} RepeatedCount(x: string, n: nat, t: string)
    ensures multiset(Repeated(x, n))[t] == if t == x then n else 0
  {
    if n > 0 {
      assert Repeated(x, n) == Repeated(x, n - 1) + [x];
      RepeatedCount(x, n - 1, t);
    }
  }

  // Splitting the concatenation gives the column back.
  lemma ListIsColumn(given: seq<string>, filtered: bool)
    requires PlainIds(given)
    ensures TagsList(given, filtered) == Column(GroupRows(given, filtered))
  {
    hide Text.Split, Product, Padded, Column;
    var col := Column(GroupRows(given, filtered));
    forall t | t in col ensures t in given {
      ColumnMembers(GroupRows(given, filtered), t);
      var r :| r in GroupRows(given, filtered) && r.a == Some(t);
      ProductMembers(Padded(given), if filtered then Padded(given) else [None], r);
      PaddedMembers(given, t);
    }
    if col != [] {
      assert col[0] in col;
      Text.SplitJoin(col, ',');
    }
  }

  lemma {:induction false} ColumnMembers(rows: seq<JoinRow>, t: string)
    ensures t in Column(rows) <==> exists r :: r in rows && r.a == Some(t)
  {
    if rows != [] {
      ColumnMembers(rows[1..], t);
      assert rows == [rows[0]] + rows[1..];
    }
  }

  // Without a filter each assigned tag is listed once, in order.
  lemma TagsWithoutFilter(given: seq<string>)
    requires PlainIds(given)
    ensures TagsList(given, false) == given
  {
    ListIsColumn(given, false);
    hide TagsList;
    ColumnProduct(Padded(given), [None]);
    if given == [] {
      assert Blocks([None][1..], 1) == [];
    } else {
      BlocksOfOne(given);
    }
  }

  // With one, the join with itself lists each of the m assigned tags m times.
  lemma TagsWithFilter(given: seq<string>, t: string)
    requires PlainIds(given) && Distinct(given)
    ensures multiset(TagsList(given, true))[t] == if t in given then |given| else 0
  {
    ListIsColumn(given, true);
    hide TagsList, Blocks;
    ColumnProduct(Padded(given), Padded(given));
    if given == [] {
      NoBlocks(1);
    } else {
      BlocksCount(given, |given|, t);
    }
  }

  lemma NoBlocks(n: nat)
    ensures Blocks([None], n) == []
  {
    assert Blocks([None][1..], n) == [];
  }

  // Two assigned tags come back as four.
  lemma TwoTagsListedTwice()
    ensures TagsList(["a", "b"], true) == ["a", "a", "b", "b"]
  {
    var tags := ["a", "b"];
    hide TagsList, Blocks, Product, Padded, Column;
    ListIsColumn(tags, true);
    ColumnProduct(Padded(tags), Padded(tags));
    PaddedLength(tags);
    assert tags[1..] == ["b"];
    BlocksFirst(tags, 2);
    BlocksFirst(["b"], 2);
  }

  lemma PaddedLength(tags: seq<string>)
    requires tags != []
    ensures |Padded(tags)| == |tags|
  {
  }

  // Requesting an assigned tag twice filters the execution out.
  lemma RepeatedRequestFiltersOut()
    ensures !Having(["a"], ["a", "a"])
  {
    FilterIsSubset(["a"], ["a", "a"]);
    assert ["a", "a"][0] == ["a", "a"][1];
  }

  // ------------------------------------------------------------ the tables

  // (tag id, execution id)
  type Link = (string, string)

  // The tags of an execution among the first n assignments.
  function TagsOf(links: seq<Link>, e: string, n: nat): seq<string>
    requires n <= |links|
  {
    if n == 0 then []
    else TagsOf(links, e, n - 1) + if links[n - 1].1 == e then [links[n - 1].0] else []
  }

  function Assigned(links: seq<Link>, e: string): seq<string> { TagsOf(links, e, |links|) }

  lemma {:induction false} TagsOfMembers(links: seq<Link>, e: string, n: nat)
    requires n <= |links| && Distinct(links)
    ensures forall t :: t in TagsOf(links, e, n) <==> (t, e) in links[..n]
    ensures Distinct(TagsOf(links, e, n))
  {
    if n > 0 {
      TagsOfMembers(links, e, n - 1);
      assert links[..n] == links[..n - 1] + [links[n - 1]];
      if links[n - 1].1 == e {
        assert links[n - 1] == (links[n - 1].0, e);
      }
    }
  }

  datatype Listed = Listed(execution: string, tags: seq<string>)

  // Executions kept by the query among the first n, newest first; an empty request filters nothing.
  function Kept(executions: seq<string>, links: seq<Link>, requested: seq<string>, n: nat): seq<Listed>
    requires n <= |executions|
  {
    if n == 0 then []
    else
      var e := executions[n - 1];
      var given := Assigned(links, e);
      Kept(executions, links, requested, n - 1) +
      if requested == [] || Having(given, requested) then [Listed(e, TagsList(given, requested != []))] else []
  }

  // LIMIT and OFFSET: a negative limit is no limit, a negative offset is none.
  function Page<T>(s: seq<T>, limit: int, offset: int): seq<T> {
    var from := Min(Max(offset, 0), |s|);
    var to := if limit < 0 then |s| else Min(from + limit, |s|);
    s[from..to]
  }

  // Consecutive pages are one longer page: nothing is skipped or repeated.
  lemma PagesConnect<T>(s: seq<T>, limit: nat, more: nat, offset: nat)
    ensures Page(s, limit, offset) + Page(s, more, offset + limit) == Page(s, limit + more, offset)
  {
  }

  // The execution carries every requested tag, and none is requested twice.
  ghost predicate Carries(links: seq<Link>, requested: seq<string>, e: string) {
    requested == [] || (Distinct(requested) && forall t :: t in requested ==> (t, e) in links)
  }

  lemma HavingIsCarries(links: seq<Link>, requested: seq<string>, e: string)
    requires Distinct(links)
    ensures requested == [] || Having(Assigned(links, e), requested) <==> Carries(links, requested, e)
  {
    hide Having, TagsOf;
    var given := Assigned(links, e);
    FilterIsSubset(given, requested);
    TagsOfMembers(links, e, |links|);
    assert links[..|links|] == links;
    if Elems(requested) <= Elems(given) {
      forall t | t in requested ensures t in given {
        assert t in Elems(requested);
      }
    }
  }

  // The query lists, newest first and once each, exactly the executions that carry every requested tag.
  lemma {:induction false} KeptExactly(executions: seq<string>, links: seq<Link>, requested: seq<string>, n: nat)
    returns (at: seq<nat>)
    requires n <= |executions| && Distinct(links)
    ensures |at| == |Kept(executions, links, requested, n)|
    ensures forall p :: 0 <= p < |at| ==> at[p] < n
    ensures forall p :: 0 <= p < |at| ==> Kept(executions, links, requested, n)[p].execution == executions[at[p]]
    ensures forall p, q :: 0 <= p < q < |at| ==> at[p] < at[q]
    ensures forall i: nat :: i < n ==> (i in at <==> Carries(links, requested, executions[i]))
  {
    hide Carries, Having, TagsList, Assigned;
    at := [];
    if n > 0 {
      at := KeptExactly(executions, links, requested, n - 1);
      HavingIsCarries(links, requested, executions[n - 1]);
      if Carries(links, requested, executions[n - 1]) {
        at := at + [n - 1];
      }
    }
  }

  // Each listed execution comes with its assigned tags, as the two lemmas above describe the list.
  lemma {:induction false} KeptTags(executions: seq<string>, links: seq<Link>, requested: seq<string>, n: nat)
    requires n <= |executions|
    ensures forall r :: r in Kept(executions, links, requested, n) ==>
              r.tags == TagsList(Assigned(links, r.execution), requested != [])
  {
    hide Having, TagsList, Assigned;
    if n > 0 {
      KeptTags(executions, links, requested, n - 1);
    }
  }

  // DELETE of some assignments, over the first n.
  function Remaining(links: seq<Link>, gone: set<Link>, n: nat): seq<Link>
    requires n <= |links|
  {
    if n == 0 then []
    else Remaining(links, gone, n - 1) + if links[n - 1] in gone then [] else [links[n - 1]]
  }

  lemma {:induction false} RemainingMembers(links: seq<Link>, gone: set<Link>, n: nat)
    requires n <= |links| && Distinct(links)
    ensures forall l :: l in Remaining(links, gone, n) <==> l in links[..n] && l !in gone
    ensures Distinct(Remaining(links, gone, n))
  {
    if n > 0 {
      RemainingMembers(links, gone, n - 1);
      assert links[..n] == links[..n - 1] + [links[n - 1]];
    }
  }

  class TagStore {
    var tags: set<string>
    // Ids of execution_logs, newest first.
    var executions: seq<string>
    // Rows of execution_tag_assignments; the pair is the primary key.
    var links: seq<Link>

    // The pair is unique and both foreign keys hold.
    ghost predicate Valid()
      reads this
    {
      Distinct(links) && forall l :: l in links ==> l.0 in tags && l.1 in executions
    }

    constructor (known: set<string>, logs: seq<string>)
      ensures Valid() && tags == known && executions == logs && links == []
    {
      tags, executions, links := known, logs, [];
    }

    // INSERT OR IGNORE: a repeated pair is ignored, a missing tag or execution fails.
    method AddTagToExecution(tag: string, execution: string) returns (ok: bool)
      requires Valid()
      modifies `links
      ensures Valid()
      ensures ok <==> tag in tags && execution in executions
      ensures links == if ok && (tag, execution) !in old(links) then old(links) + [(tag, execution)] else old(links)
    {
      ok := tag in tags && execution in executions;
      if ok && (tag, execution) !in links {
        links := links + [(tag, execution)];
      }
    }

    method RemoveTagFromExecution(tag: string, execution: string) returns (removed: bool)
      requires Valid()
      modifies `links
      ensures Valid()
      ensures removed <==> (tag, execution) in old(links)
      ensures forall l :: l in links <==> l in old(links) && l != (tag, execution)
    {
      RemainingMembers(links, {(tag, execution)}, |links|);
      assert links[..|links|] == links;
      removed := (tag, execution) in links;
      links := Remaining(links, {(tag, execution)}, |links|);
    }

    // Deleting a tag cascades to its assignments.
    method DeleteTag(tag: string) returns (deleted: bool)
      requires Valid()
      modifies `links, `tags
      ensures Valid()
      ensures deleted <==> tag in old(tags)
      ensures tags == old(tags) - {tag}
      ensures forall l :: l in links <==> l in old(links) && l.0 != tag
    {
      var gone := set l | l in links && l.0 == tag;
      RemainingMembers(links, gone, |links|);
      assert links[..|links|] == links;
      deleted := tag in tags;
      tags := tags - {tag};
      links := Remaining(links, gone, |links|);
    }

    method GetExecutionsWithTags(limit: int, offset: int, requested: seq<string>) returns (page: seq<Listed>)
      ensures page == Page(Kept(executions, links, requested, |executions|), limit, offset)
      ensures var all := Kept(executions, links, requested, |executions|);
              var from := if offset < 0 then 0 else if offset > |all| then |all| else offset;
              && |page| == (if 0 <= limit <= |all| - from then limit else |all| - from)
              && forall k :: 0 <= k < |page| ==> page[k] == all[from + k]
    {
      hide Having, TagsList, Assigned;
      var kept: seq<Listed> := [];
      for n := 0 to |executions|
        invariant kept == Kept(executions, links, requested, n)
      {
        var given := Assigned(links, executions[n]);
        if requested == [] || Having(given, requested) {
          kept := kept + [Listed(executions[n], TagsList(given, requested != []))];
        }
      }
      page := Page(kept, limit, offset);
    }
  }
}
