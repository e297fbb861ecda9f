// Reciprocal rank fusion of a full-text and a vector ranking (backend/app/db/agent_memory.py, hybrid_recall).
module HybridRecall {
  import opened Prelude

  type Id = string

  const K: nat := 60

  datatype Message = Message(id: Id, thread: string, at: int, content: string)

  function Ids(messages: seq<Message>): seq<Id> { seq(|messages|, i requires 0 <= i < |messages| => messages[i].id) }

  // {id: rank for rank, id in enumerate(list)}: a repeated id keeps its last rank.
  ghost predicate IsRankMap(list: seq<Id>, ranks: map<Id, nat>) {
    && ranks.Keys == Elems(list)
    && (forall x :: x in ranks ==> ranks[x] < |list| && list[ranks[x]] == x && x !in list[ranks[x] + 1..])
  }

  // The rank of an id, or the default; a negative topK makes the default negative, but never -K.
  function RankIn(ranks: map<Id, nat>, x: Id, topK: int): (rank: int)
    ensures K + rank != 0
  {
    if x in ranks then ranks[x] else 2 * topK + 1
  }

  // Length of scored[:topK] for n candidates.
  function Kept(topK: int, n: nat): (k: nat)
    ensures k <= n
  {
    if topK >= 0 then Min(topK, n) else Max(0, n + topK)
  }

  function Score(alpha: real, ftsRank: int, vecRank: int): real
    requires K + ftsRank != 0 && K + vecRank != 0
  {
    alpha / (K + ftsRank) as real + (1.0 - alpha) / (K + vecRank) as real
  }

  // The two rank maps and the parameters of one call.
  datatype Fusion = Fusion(alpha: real, topK: int, fts: map<Id, nat>, vec: map<Id, nat>) {
    function FtsRank(x: Id): (rank: int)
      ensures K + rank != 0
    {
      RankIn(fts, x, topK)
    }

    function VecRank(x: Id): (rank: int)
      ensures K + rank != 0
    {
      RankIn(vec, x, topK)
    }

    function ScoreOf(x: Id): real { Score(alpha, FtsRank(x), VecRank(x)) }
  }

  // xs is the best selection of members of `all` that scored[:topK] makes, best first.
  ghost predicate IsTop(xs: seq<Id>, all: set<Id>, f: Fusion) {
    && Distinct(xs)
    && Elems(xs) <= all
    && |xs| == Kept(f.topK, |all|)
    && (forall i, j :: 0 <= i < j < |xs| ==> f.ScoreOf(xs[i]) >= f.ScoreOf(xs[j]))
    && (forall i, y :: 0 <= i < |xs| && y in all && y !in xs ==> f.ScoreOf(xs[i]) >= f.ScoreOf(y))
  }

  // ------------------------------------------------------------ rank arithmetic

  lemma ReciprocalDecreases(a: real, x: real, y: real)
    requires a >= 0.0 && 0.0 < x <= y
    ensures a / x >= a / y
    ensures a > 0.0 && x < y ==> a / x > a / y
  {
    assert a / x - a / y == a * (y - x) / (x * y);
  }

  // No worse in both rankings and better in one scores strictly higher.
  lemma BetterRanksScoreHigher(alpha: real, f: nat, v: nat, f': nat, v': nat)
    requires 0.0 < alpha < 1.0
    requires f <= f' && v <= v' && (f < f' || v < v')
    ensures Score(alpha, f, v) > Score(alpha, f', v')
  {
    ReciprocalDecreases(alpha, (K + f) as real, (K + f') as real);
    ReciprocalDecreases(1.0 - alpha, (K + v) as real, (K + v') as real);
  }

  // Being in a ranking beats being absent from it: ranks of fetched rows are below 2 * topK.
  lemma PresentBeatsAbsent(f: Fusion, list: seq<Id>, x: Id, y: Id)
    requires 0.0 < f.alpha < 1.0 && |list| <= 2 * f.topK
    requires x in list && y !in list
    ensures IsRankMap(list, f.fts) && f.VecRank(x) <= f.VecRank(y) ==> f.ScoreOf(x) > f.ScoreOf(y)
    ensures IsRankMap(list, f.vec) && f.FtsRank(x) <= f.FtsRank(y) ==> f.ScoreOf(x) > f.ScoreOf(y)
  {
    if IsRankMap(list, f.fts) && f.VecRank(x) <= f.VecRank(y) {
      BetterRanksScoreHigher(f.alpha, f.FtsRank(x), f.VecRank(x), f.FtsRank(y), f.VecRank(y));
    }
    if IsRankMap(list, f.vec) && f.FtsRank(x) <= f.FtsRank(y) {
      BetterRanksScoreHigher(f.alpha, f.FtsRank(x), f.VecRank(x), f.FtsRank(y), f.VecRank(y));
    }
  }

  // ------------------------------------------------------------ the order, by positions in the lists

  // The rank of x in a list: its last position, or the default when it is not there.
  ghost predicate IsRank(list: seq<Id>, topK: int, x: Id, rank: int) {
    if x in list then 0 <= rank < |list| && list[rank] == x && x !in list[rank + 1..]
    else rank == 2 * topK + 1
  }

  lemma NoneAfter(list: seq<Id>, rank: nat, x: Id)
    requires rank < |list| && x !in list[rank + 1..]
    ensures forall k :: rank < k < |list| ==> list[k] != x
  {
    forall k | rank < k < |list| ensures list[k] != x {
      assert list[rank + 1..][k - rank - 1] == list[k];
    }
  }

  lemma RankIsIn(list: seq<Id>, ranks: map<Id, nat>, topK: int, x: Id, rank: int)
    requires IsRankMap(list, ranks) && IsRank(list, topK, x, rank)
    ensures RankIn(ranks, x, topK) == rank
  {
    assert x in list <==> x in Elems(list);
    if x in list {
      NoneAfter(list, rank, x);
      NoneAfter(list, ranks[x], x);
    }
  }

  // alpha / (60 + f) + (1 - alpha) / (60 + v), the two ranks being the last positions or the default.
  lemma ScoreIs(fts: seq<Id>, vec: seq<Id>, f: Fusion, x: Id, fx: int, vx: int)
    requires IsRankMap(fts, f.fts) && IsRankMap(vec, f.vec)
    requires IsRank(fts, f.topK, x, fx) && IsRank(vec, f.topK, x, vx)
    ensures 60 + fx != 0 && 60 + vx != 0
    ensures f.ScoreOf(x) == f.alpha / (60 + fx) as real + (1.0 - f.alpha) / (60 + vx) as real
  {
    hide IsRank, IsRankMap, RankIn;
    RankIsIn(fts, f.fts, f.topK, x, fx);
    RankIsIn(vec, f.vec, f.topK, x, vx);
  }

  lemma NoWorse(xs: seq<Id>, all: set<Id>, f: Fusion, i: nat, y: Id)
    requires IsTop(xs, all, f) && i < |xs| && (y in xs[i + 1..] || (y !in xs && y in all))
    ensures f.ScoreOf(xs[i]) >= f.ScoreOf(y)
  {
    hide Score, RankIn;
    if y in xs[i + 1..] {
      var p :| 0 <= p < |xs[i + 1..]| && xs[i + 1..][p] == y;
      assert xs[i + 1 + p] == y;
    }
  }

  // Reciprocal rank fusion with constant 60: of two candidates the one that is placed before the
  // other, or kept while the other is not, has no smaller alpha / (60 + f) + (1 - alpha) / (60 + v).
  lemma FusedOrder(xs: seq<Id>, fts: seq<Id>, vec: seq<Id>, f: Fusion,
                   i: nat, y: Id, fx: int, vx: int, fy: int, vy: int)
    requires IsRankMap(fts, f.fts) && IsRankMap(vec, f.vec) && IsTop(xs, Elems(fts) + Elems(vec), f)
    requires i < |xs| && (y in xs[i + 1..] || (y !in xs && (y in fts || y in vec)))
    requires IsRank(fts, f.topK, xs[i], fx) && IsRank(vec, f.topK, xs[i], vx)
    requires IsRank(fts, f.topK, y, fy) && IsRank(vec, f.topK, y, vy)
    ensures 60 + fx != 0 && 60 + vx != 0 && 60 + fy != 0 && 60 + vy != 0
    ensures f.alpha / (60 + fx) as real + (1.0 - f.alpha) / (60 + vx) as real
         >= f.alpha / (60 + fy) as real + (1.0 - f.alpha) / (60 + vy) as real
  {
    hide IsTop, IsRank, IsRankMap, RankIn, Score;
    assert y in fts || y in vec ==> y in Elems(fts) + Elems(vec);
    NoWorse(xs, Elems(fts) + Elems(vec), f, i, y);
    ScoreIs(fts, vec, f, xs[i], fx, vx);
    ScoreIs(fts, vec, f, y, fy, vy);
  }

  lemma DefaultWeights()
    ensures 0.4 / 61.0 + 0.6 / 60.0 > 0.4 / 60.0 + 0.6 / 61.0
  {
  }

  lemma TwoRanks(x: Id, y: Id, topK: int)
    requires x != y
    ensures IsRank([x, y], topK, x, 0) && IsRank([x, y], topK, y, 1)
  {
    assert [x, y][1..] == [y] && [x, y][2..] == [];
  }

  // With the default weight the vector ranking decides between two messages the lists order oppositely.
  lemma DefaultWeightFollowsVector(xs: seq<Id>, x: Id, y: Id, f: Fusion)
    requires x != y && f.alpha == 0.4
    requires IsRankMap([x, y], f.fts) && IsRankMap([y, x], f.vec) && IsTop(xs, Elems([x, y]) + Elems([y, x]), f)
    ensures xs != [x, y]
  {
    hide *;
    if xs == [x, y] {
      TwoRanks(x, y, f.topK);
      TwoRanks(y, x, f.topK);
      FusedOrder(xs, [x, y], [y, x], f, 0, y, 0, 1, 1, 0);
      DefaultWeights();
      assert false;
    }
  }

  // ------------------------------------------------------------ one ranking alone

  // Scores fall strictly along the list, and whatever is not listed is below all of it.
  ghost predicate Follows(list: seq<Id>, all: set<Id>, f: Fusion) {
    && (forall i, j :: 0 <= i < j < |list| ==> f.ScoreOf(list[i]) > f.ScoreOf(list[j]))
    && (forall i, y :: 0 <= i < |list| && y in all && y !in list ==> f.ScoreOf(list[i]) > f.ScoreOf(y))
  }

  lemma {:induction false} TopFollowsList(xs: seq<Id>, all: set<Id>, f: Fusion, list: seq<Id>, i: nat)
    requires IsTop(xs, all, f) && Elems(list) <= all && Follows(list, all, f)
    requires i < Min(f.topK, |list|)
    ensures i < |xs| && xs[i] == list[i]
    decreases i
  {
    hide Score, RankIn;
    forall j | 0 <= j < i ensures j < |xs| && xs[j] == list[j] {
      TopFollowsList(xs, all, f, list, j);
    }
    assert Distinct(list);
    DistinctCardinality(list);
    SubsetCardinality(Elems(list), all);
  }

  lemma RanksOfDistinct(list: seq<Id>, ranks: map<Id, nat>)
    requires Distinct(list) && IsRankMap(list, ranks)
    ensures forall i :: 0 <= i < |list| ==> list[i] in ranks && ranks[list[i]] == i
  {
    forall i | 0 <= i < |list| ensures list[i] in ranks && ranks[list[i]] == i {
      assert list[i] in Elems(list);
    }
  }

  lemma OnlyFtsCounts(f: Fusion, x: Id, y: Id)
    requires f.alpha == 1.0 && f.topK >= 0 && f.FtsRank(x) < f.FtsRank(y)
    ensures f.ScoreOf(x) > f.ScoreOf(y)
  {
    ReciprocalDecreases(1.0, (K + f.FtsRank(x)) as real, (K + f.FtsRank(y)) as real);
  }

  lemma OnlyVecCounts(f: Fusion, x: Id, y: Id)
    requires f.alpha == 0.0 && f.topK >= 0 && f.VecRank(x) < f.VecRank(y)
    ensures f.ScoreOf(x) > f.ScoreOf(y)
  {
    ReciprocalDecreases(1.0, (K + f.VecRank(x)) as real, (K + f.VecRank(y)) as real);
  }

  // alpha = 1 returns the first entries of the full-text order.
  lemma FtsAlone(xs: seq<Id>, all: set<Id>, f: Fusion, list: seq<Id>, i: nat)
    requires f.alpha == 1.0 && IsTop(xs, all, f)
    requires Distinct(list) && |list| <= 2 * f.topK && IsRankMap(list, f.fts) && Elems(list) <= all
    requires i < Min(f.topK, |list|)
    ensures i < |xs| && xs[i] == list[i]
  {
    RanksOfDistinct(list, f.fts);
    forall x, y | f.FtsRank(x) < f.FtsRank(y) ensures f.ScoreOf(x) > f.ScoreOf(y) {
      OnlyFtsCounts(f, x, y);
    }
    assert Follows(list, all, f) by {
      hide Score;
    }
    TopFollowsList(xs, all, f, list, i);
  }

  // alpha = 0 returns the first entries of the vector order.
  lemma VecAlone(xs: seq<Id>, all: set<Id>, f: Fusion, list: seq<Id>, i: nat)
    requires f.alpha == 0.0 && IsTop(xs, all, f)
    requires Distinct(list) && |list| <= 2 * f.topK && IsRankMap(list, f.vec) && Elems(list) <= all
    requires i < Min(f.topK, |list|)
    ensures i < |xs| && xs[i] == list[i]
  {
    RanksOfDistinct(list, f.vec);
    forall x, y | f.VecRank(x) < f.VecRank(y) ensures f.ScoreOf(x) > f.ScoreOf(y) {
      OnlyVecCounts(f, x, y);
    }
    assert Follows(list, all, f) by {
      hide Score;
    }
    TopFollowsList(xs, all, f, list, i);
  }

  // ------------------------------------------------------------ the code

  datatype Scored = Scored(message: Message, score: real)

  method RankMap(list: seq<Id>) returns (ranks: map<Id, nat>)
    ensures IsRankMap(list, ranks)
  {
    ranks := map[];
    for rank := 0 to |list|
      invariant IsRankMap(list[..rank], ranks)
    {
      ranks := ranks[list[rank] := rank];
      assert list[..rank + 1] == list[..rank] + [list[rank]];
    }
    assert list[..|list|] == list;
  }

  ghost predicate Descending(s: seq<Scored>) { forall i, j :: 0 <= i < j < |s| ==> s[i].score >= s[j].score }

  // scored.sort(key=score, reverse=True): stable.
  method SortByScore(s: seq<Scored>) returns (r: seq<Scored>)
    ensures Descending(r) && multiset(r) == multiset(s)
  {
    r := [];
    for n := 0 to |s|
      invariant Descending(r) && multiset(r) == multiset(s[..n])
    {
      r := InsertByScore(r, s[n]);
      assert s[..n + 1] == s[..n] + [s[n]];
    }
    assert s[..|s|] == s;
  }

  lemma InsertedDescends(s: seq<Scored>, i: nat, x: Scored)
    requires Descending(s) && i <= |s|
    requires forall j :: 0 <= j < i ==> s[j].score >= x.score
    requires forall j :: i <= j < |s| ==> s[j].score < x.score
    ensures Descending(s[..i] + [x] + s[i..])
    ensures multiset(s[..i] + [x] + s[i..]) == multiset(s) + multiset{x}
  {
    assert s == s[..i] + s[i..];
  }

  method InsertByScore(s: seq<Scored>, x: Scored) returns (r: seq<Scored>)
    requires Descending(s)
    ensures Descending(r) && multiset(r) == multiset(s) + multiset{x}
  {
    var i := |s|;
    while i > 0 && s[i - 1].score < x.score
      invariant 0 <= i <= |s|
      invariant forall j :: i <= j < |s| ==> s[j].score < x.score
    {
      i := i - 1;
    }
    InsertedDescends(s, i, x);
    r := s[..i] + [x] + s[i..];
  }

  // {msg.id: msg}, full-text rows first, vector rows only for new ids.
  method MessageMap(fts: seq<Message>, vec: seq<Message>) returns (messages: map<Id, Message>)
    ensures messages.Keys == Elems(Ids(fts)) + Elems(Ids(vec))
    ensures forall x :: x in messages ==> messages[x].id == x
    ensures forall x :: x in Ids(fts) ==> messages[x] in fts
    ensures forall x :: x in messages && x !in Ids(fts) ==> messages[x] in vec
  {
    messages := map[];
    for i := 0 to |fts|
      invariant messages.Keys == Elems(Ids(fts[..i]))
      invariant forall x :: x in messages ==> messages[x].id == x && messages[x] in fts
    {
      messages := messages[fts[i].id := fts[i]];
      assert Ids(fts[..i + 1]) == Ids(fts[..i]) + [fts[i].id];
    }
    assert fts[..|fts|] == fts && vec[..|vec|] == vec;
    for i := 0 to |vec|
      invariant messages.Keys == Elems(Ids(fts)) + Elems(Ids(vec[..i]))
      invariant forall x :: x in messages ==> messages[x].id == x
      invariant forall x :: x in Ids(fts) ==> messages[x] in fts
      invariant forall x :: x in messages && x !in Ids(fts) ==> messages[x] in vec
    {
      if vec[i].id !in messages {
        messages := messages[vec[i].id := vec[i]];
      }
      assert Ids(vec[..i + 1]) == Ids(vec[..i]) + [vec[i].id];
    }
  }

  function ScoredIds(s: seq<Scored>): seq<Id> { seq(|s|, i requires 0 <= i < |s| => s[i].message.id) }

  ghost predicate IsScored(messages: map<Id, Message>, f: Fusion, e: Scored) {
    e.message.id in messages && e.message == messages[e.message.id] && e.score == f.ScoreOf(e.message.id)
  }

  // Score every id of the union, in the arbitrary order of a set.
  method ScoreAll(messages: map<Id, Message>, f: Fusion) returns (scored: seq<Scored>)
    requires forall x :: x in messages ==> messages[x].id == x
    ensures |scored| == |messages|
    ensures Elems(ScoredIds(scored)) == messages.Keys
    ensures forall e :: e in scored ==> IsScored(messages, f, e)
  {
    hide Score;
    scored := [];
    var todo := messages.Keys;
    while todo != {}
      invariant todo <= messages.Keys && |scored| + |todo| == |messages.Keys|
      invariant Elems(ScoredIds(scored)) == messages.Keys - todo
      invariant forall e :: e in scored ==> IsScored(messages, f, e)
      decreases todo
    {
      var x :| x in todo;
      var e := Scored(messages[x], f.ScoreOf(x));
      assert ScoredIds(scored + [e]) == ScoredIds(scored) + [x];
      assert Elems(ScoredIds(scored) + [x]) == Elems(ScoredIds(scored)) + {x};
      scored := scored + [e];
      todo := todo - {x};
    }
  }

  // Sorting does not lose or repeat an id.
  lemma SortedIds(scored: seq<Scored>, sorted: seq<Scored>)
    requires multiset(sorted) == multiset(scored)
    requires |Elems(ScoredIds(scored))| == |scored|
    ensures |sorted| == |scored|
    ensures Distinct(ScoredIds(sorted)) && Elems(ScoredIds(sorted)) == Elems(ScoredIds(scored))
    ensures forall e :: e in sorted <==> e in scored
  {
    assert |sorted| == |multiset(sorted)| && |scored| == |multiset(scored)|;
    assert forall e :: e in sorted <==> e in multiset(sorted);
    assert forall e :: e in scored <==> e in multiset(scored);
    SameIds(scored, sorted);
    SameIds(sorted, scored);
    assert Elems(ScoredIds(sorted)) == Elems(ScoredIds(scored));
    assert |Elems(ScoredIds(sorted))| == |ScoredIds(sorted)|;
    CardinalityDistinct(ScoredIds(sorted));
  }

  lemma SameIds(a: seq<Scored>, b: seq<Scored>)
    requires forall e :: e in a ==> e in b
    ensures Elems(ScoredIds(a)) <= Elems(ScoredIds(b))
  {
    forall x | x in ScoredIds(a) ensures x in ScoredIds(b) {
      var i :| 0 <= i < |a| && ScoredIds(a)[i] == x;
      assert a[i] in b;
      var j :| 0 <= j < |b| && b[j] == a[i];
      assert ScoredIds(b)[j] == x;
    }
  }

  // The first topK of all candidates in falling order are a best selection.
  lemma PrefixIsTop(ids: seq<Id>, f: Fusion)
    requires Distinct(ids)
    requires forall i, j :: 0 <= i < j < |ids| ==> f.ScoreOf(ids[i]) >= f.ScoreOf(ids[j])
    ensures IsTop(ids[..Kept(f.topK, |ids|)], Elems(ids), f)
  {
    hide Score, RankIn;
    var k := Kept(f.topK, |ids|);
    DistinctCardinality(ids);
    forall i, y | 0 <= i < k && y in ids && y !in ids[..k] ensures f.ScoreOf(ids[i]) >= f.ScoreOf(y) {
      var j :| 0 <= j < |ids| && ids[j] == y;
      assert forall p :: 0 <= p < k ==> ids[..k][p] == ids[p];
    }
  }

  lemma SortedPrefixIsTop(messages: map<Id, Message>, f: Fusion, sorted: seq<Scored>)
    requires Descending(sorted) && Distinct(ScoredIds(sorted))
    requires forall e :: e in sorted ==> IsScored(messages, f, e)
    ensures IsTop(ScoredIds(sorted)[..Kept(f.topK, |sorted|)], Elems(ScoredIds(sorted)), f)
  {
    var ids := ScoredIds(sorted);
    forall i | 0 <= i < |ids| ensures f.ScoreOf(ids[i]) == sorted[i].score {
      assert sorted[i] in sorted;
    }
    hide Score, IsScored;
    PrefixIsTop(ids, f);
  }

  // The fused ranking, before context is added.
  method Fuse(fts: seq<Message>, vec: seq<Message>, topK: int, alpha: real)
    returns (results: seq<Message>, ghost f: Fusion)
    ensures f.alpha == alpha && f.topK == topK && IsRankMap(Ids(fts), f.fts) && IsRankMap(Ids(vec), f.vec)
    ensures IsTop(Ids(results), Elems(Ids(fts)) + Elems(Ids(vec)), f)
    ensures var n := |Elems(Ids(fts)) + Elems(Ids(vec))|;
            |results| == if topK >= 0 then (if topK <= n then topK else n) else (if n + topK >= 0 then n + topK else 0)
    ensures forall m :: m in results ==> m in (if m.id in Ids(fts) then fts else vec)
  {
    hide IsTop, Score, IsRankMap, Ids, ScoredIds, Messages;
    var ftsRanks := RankMap(Ids(fts));
    var vecRanks := RankMap(Ids(vec));
    var fusion := Fusion(alpha, topK, ftsRanks, vecRanks);
    f := fusion;
    var messages := MessageMap(fts, vec);
    var scored := ScoreAll(messages, fusion);
    var sorted := SortByScore(scored);
    SortedIds(scored, sorted);
    var k := Kept(topK, |sorted|);
    SortedPrefixIsTop(messages, fusion, sorted);
    results := Messages(sorted[..k]);
    FirstMessages(sorted, k);
    ResultsAreRows(messages, fusion, sorted, k);
  }

  lemma ResultsAreRows(messages: map<Id, Message>, f: Fusion, sorted: seq<Scored>, k: nat)
    requires k <= |sorted| && forall e :: e in sorted ==> IsScored(messages, f, e)
    ensures forall m :: m in Messages(sorted[..k]) ==> m.id in messages && m == messages[m.id]
  {
    FirstMessages(sorted, k);
    forall m | m in Messages(sorted[..k]) ensures m.id in messages && m == messages[m.id] {
      var i :| 0 <= i < k && Messages(sorted[..k])[i] == m;
      assert sorted[i] in sorted;
    }
  }

  function Messages(s: seq<Scored>): seq<Message> { seq(|s|, i requires 0 <= i < |s| => s[i].message) }

  lemma FirstMessages(s: seq<Scored>, k: nat)
    requires k <= |s|
    ensures Ids(Messages(s[..k])) == ScoredIds(s)[..k]
    ensures |Messages(s[..k])| == k && forall i :: 0 <= i < k ==> Messages(s[..k])[i] == s[i].message
  {
  }
}
