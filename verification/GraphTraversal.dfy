// Distance in the knowledge graph, for the bounded traversal of
// backend/app/db/knowledge_graph.py (traverse_graph).
module GraphTraversal {
  import opened Prelude

  type Id = string

  datatype Entity = Entity(agent: string, name: string, kind: string, properties: string, mentions: nat,
                           importance: real)

  datatype Relation = Relation(agent: string, source: Id, target: Id, kind: string, properties: string,
                               confidence: real, mentions: nat)

  datatype Store = Store(entities: map<Id, Entity>, relations: map<Id, Relation>)

  // Both ends of a relation exist (the JOINs of the query).
  predicate Attached(s: Store, r: Relation) { r.source in s.entities && r.target in s.entities }

  // The rows the traversal query returns for entity x.
  predicate Touches(s: Store, agent: string, r: Id, x: Id) {
    && r in s.relations
    && s.relations[r].agent == agent
    && Attached(s, s.relations[r])
    && (s.relations[r].source == x || s.relations[r].target == x)
  }

  // x and y are the two ends of one of the agent's relations, in either direction.
  ghost predicate Linked(s: Store, agent: string, x: Id, y: Id) {
    exists r :: && r in s.relations && s.relations[r].agent == agent
                && s.relations[r].source in s.entities && s.relations[r].target in s.entities
                && {s.relations[r].source, s.relations[r].target} == {x, y}
  }

  ghost predicate IsPath(s: Store, agent: string, p: seq<Id>) {
    |p| > 0 && forall i :: 0 < i < |p| ==> Linked(s, agent, p[i - 1], p[i])
  }

  // y can be reached from x along at most n links.
  ghost predicate Within(s: Store, agent: string, x: Id, y: Id, n: nat) {
    exists p: seq<Id> :: IsPath(s, agent, p) && p[0] == x && p[|p| - 1] == y && |p| <= n + 1
  }

  // Ends of the relations that touch x.
  function Neighbours(s: Store, agent: string, x: Id): set<Id> {
    (set r | r in s.relations && Touches(s, agent, r, x) :: s.relations[r].source)
    + (set r | r in s.relations && Touches(s, agent, r, x) :: s.relations[r].target)
  }

  ghost function Reached(s: Store, agent: string, xs: set<Id>): set<Id> {
    set x, y | x in xs && y in Neighbours(s, agent, x) :: y
  }

  ghost function Ball(s: Store, agent: string, seed: Id, n: nat): set<Id> {
    if n == 0 then {seed}
    else Ball(s, agent, seed, n - 1) + Reached(s, agent, Ball(s, agent, seed, n - 1))
  }

  lemma NeighbourIffLinked(s: Store, agent: string, x: Id, y: Id)
    requires x != y
    ensures y in Neighbours(s, agent, x) <==> Linked(s, agent, x, y)
  {
    if y in Neighbours(s, agent, x) {
      var r :| r in s.relations && Touches(s, agent, r, x) &&
          (s.relations[r].source == y || s.relations[r].target == y);
      assert Touches(s, agent, r, y) && {s.relations[r].source, s.relations[r].target} == {x, y};
    }
  }

  // The set the loop computes level by level is the set of entities at distance at most n.
  lemma {:induction false} BallIsWithin(s: Store, agent: string, seed: Id, n: nat, y: Id)
    ensures y in Ball(s, agent, seed, n) <==> Within(s, agent, seed, y, n)
  {
    if y in Ball(s, agent, seed, n) {
      BallHasPath(s, agent, seed, n, y);
    }
    if Within(s, agent, seed, y, n) {
      var p :| IsPath(s, agent, p) && p[0] == seed && p[|p| - 1] == y && |p| <= n + 1;
      PathInBall(s, agent, seed, n, p);
    }
  }

  lemma {:induction false} BallHasPath(s: Store, agent: string, seed: Id, n: nat, y: Id)
    requires y in Ball(s, agent, seed, n)
    ensures Within(s, agent, seed, y, n)
  {
    if n == 0 {
      assert IsPath(s, agent, [seed]);
    } else if y in Ball(s, agent, seed, n - 1) {
      BallHasPath(s, agent, seed, n - 1, y);
    } else {
      var x :| x in Ball(s, agent, seed, n - 1) && y in Neighbours(s, agent, x);
      BallHasPath(s, agent, seed, n - 1, x);
      NeighbourIffLinked(s, agent, x, y);
      WithinExtends(s, agent, seed, x, y, n - 1);
    }
  }

  lemma WithinExtends(s: Store, agent: string, x: Id, y: Id, z: Id, n: nat)
    requires Within(s, agent, x, y, n) && Linked(s, agent, y, z)
    ensures Within(s, agent, x, z, n + 1)
  {
    hide Linked;
    var p :| IsPath(s, agent, p) && p[0] == x && p[|p| - 1] == y && |p| <= n + 1;
    var q := p + [z];
    forall i | 0 < i < |q| ensures Linked(s, agent, q[i - 1], q[i]) {
      if i < |p| {
        assert q[i - 1] == p[i - 1] && q[i] == p[i];
      }
    }
    assert IsPath(s, agent, q);
  }

  lemma NeighbourIsReached(s: Store, agent: string, xs: set<Id>, x: Id, y: Id)
    requires x in xs && y in Neighbours(s, agent, x)
    ensures y in Reached(s, agent, xs)
  {
  }

  lemma {:induction false} PathInBall(s: Store, agent: string, seed: Id, n: nat, p: seq<Id>)
    requires IsPath(s, agent, p) && p[0] == seed && |p| <= n + 1
    ensures p[|p| - 1] in Ball(s, agent, seed, n)
    decreases n
  {
    hide Reached, Neighbours;
    if n > 0 {
      if |p| == 1 {
        PathInBall(s, agent, seed, n - 1, p);
      } else {
        var q := p[..|p| - 1];
        assert forall i :: 0 < i < |q| ==> Linked(s, agent, p[i - 1], p[i]);
        PathInBall(s, agent, seed, n - 1, q);
        var x, y := p[|p| - 2], p[|p| - 1];
        assert Linked(s, agent, x, y);
        if x != y {
          NeighbourIffLinked(s, agent, x, y);
          NeighbourIsReached(s, agent, Ball(s, agent, seed, n - 1), x, y);
        }
      }
    }
  }

  lemma {:induction false} BallGrows(s: Store, agent: string, seed: Id, m: nat, n: nat)
    requires m <= n
    ensures Ball(s, agent, seed, m) <= Ball(s, agent, seed, n)
    decreases n
  {
    if m < n {
      BallGrows(s, agent, seed, m, n - 1);
    }
  }

  lemma {:induction false} BallWithinStore(s: Store, agent: string, seed: Id, n: nat)
    requires seed in s.entities
    ensures Ball(s, agent, seed, n) <= s.entities.Keys
  {
    if n > 0 {
      BallWithinStore(s, agent, seed, n - 1);
    }
  }

  lemma {:induction false} StableForever(s: Store, agent: string, seed: Id, m: nat, n: nat)
    requires m <= n && Ball(s, agent, seed, m + 1) == Ball(s, agent, seed, m)
    ensures Ball(s, agent, seed, n) == Ball(s, agent, seed, m)
    decreases n
  {
    hide Reached;
    if m < n {
      StableForever(s, agent, seed, m, n - 1);
    }
  }

  // As long as the ball keeps growing it gains an entity a level.
  lemma {:induction false} StableOrLarge(s: Store, agent: string, seed: Id, n: nat)
    ensures Ball(s, agent, seed, n + 1) == Ball(s, agent, seed, n) || |Ball(s, agent, seed, n + 1)| > n + 1
  {
    hide Reached;
    BallGrows(s, agent, seed, n, n + 1);
    if n > 0 {
      StableOrLarge(s, agent, seed, n - 1);
      if Ball(s, agent, seed, n) == Ball(s, agent, seed, n - 1) {
        StableForever(s, agent, seed, n - 1, n + 1);
        StableForever(s, agent, seed, n - 1, n);
      }
    } else {
      assert |Ball(s, agent, seed, 0)| == 1;
    }
    SubsetCardinality(Ball(s, agent, seed, n), Ball(s, agent, seed, n + 1));
  }

  // Once hops reaches the number of entities (minus one) the ball is the whole component.
  lemma {:induction false} BallIsComponent(s: Store, agent: string, seed: Id, hops: nat, n: nat)
    requires seed in s.entities && hops + 1 >= |s.entities|
    ensures Ball(s, agent, seed, n) <= Ball(s, agent, seed, hops)
  {
    if n <= hops {
      BallGrows(s, agent, seed, n, hops);
    } else {
      StableOrLarge(s, agent, seed, hops);
      BallWithinStore(s, agent, seed, hops + 1);
      SubsetCardinality(Ball(s, agent, seed, hops + 1), s.entities.Keys);
      StableForever(s, agent, seed, hops, n);
    }
  }

  // ------------------------------------------------------------ the traversal loop

  function TouchedBy(s: Store, agent: string, xs: set<Id>): set<Id> {
    set r, x | r in s.relations && x in xs && Touches(s, agent, r, x) :: r
  }

  // Entities already expanded when the loop has finished level n.
  ghost function Expanded(s: Store, agent: string, seed: Id, n: nat): set<Id> {
    if n == 0 then {} else Ball(s, agent, seed, n - 1)
  }

  // Entities and relations collected so far, and the frontier of the next level.
  datatype Found = Found(entities: map<Id, Entity>, relations: map<Id, Relation>, next: set<Id>)

  // The collected rows are rows of the store.
  ghost predicate Copies(s: Store, f: Found) {
    && (forall x :: x in f.entities ==> x in s.entities && f.entities[x] == s.entities[x])
    && (forall r :: r in f.relations ==> r in s.relations && f.relations[r] == s.relations[r])
  }

  ghost function Ends(s: Store, rs: set<Id>): set<Id>
    requires rs <= s.relations.Keys
  {
    (set r | r in rs :: s.relations[r].source) + (set r | r in rs :: s.relations[r].target)
  }

  lemma EndsGrow(s: Store, rs: set<Id>, r: Id)
    requires rs <= s.relations.Keys && r in s.relations
    ensures Ends(s, rs + {r}) == Ends(s, rs) + {s.relations[r].source, s.relations[r].target}
  {
  }

  // What the loop over the rows of one entity has found after the rows `done`, from f0.
  ghost predicate Collected(s: Store, f0: Found, done: set<Id>, f: Found) {
    && done <= s.relations.Keys
    && Copies(s, f)
    && f.entities.Keys == f0.entities.Keys + Ends(s, done)
    && f.relations.Keys == f0.relations.Keys + done
    && f.next == f0.next + (f.entities.Keys - f0.entities.Keys)
  }

  // One end of a row: kept unless it is there already.
  method AddNeighbour(s: Store, id: Id, f0: Found) returns (f: Found)
    requires id in s.entities && Copies(s, f0)
    ensures Copies(s, f) && f.relations == f0.relations
    ensures f.entities.Keys == f0.entities.Keys + {id}
    ensures f.next == f0.next + (f.entities.Keys - f0.entities.Keys)
  {
    f := f0;
    if id !in f.entities {
      f := f.(entities := f.entities[id := s.entities[id]], next := f.next + {id});
    }
  }

  lemma CopyRelation(s: Store, r: Id, f: Found)
    requires r in s.relations && Copies(s, f)
    ensures Copies(s, f.(relations := f.relations[r := s.relations[r]]))
  {
  }

  // One row of the query.
  method CollectRow(s: Store, r: Id, f0: Found) returns (f: Found)
    requires r in s.relations && Attached(s, s.relations[r]) && Copies(s, f0)
    ensures Copies(s, f)
    ensures f.entities.Keys == f0.entities.Keys + {s.relations[r].source, s.relations[r].target}
    ensures f.relations.Keys == f0.relations.Keys + {r}
    ensures f.next == f0.next + (f.entities.Keys - f0.entities.Keys)
  {
    hide Copies;
    var row := s.relations[r];
    CopyRelation(s, r, f0);
    f := f0.(relations := f0.relations[r := row]);
    f := AddNeighbour(s, row.source, f);
    f := AddNeighbour(s, row.target, f);
  }

  lemma CollectedGrows(s: Store, f0: Found, done: set<Id>, f1: Found, r: Id, f: Found)
    requires Collected(s, f0, done, f1)
    requires r in s.relations && Copies(s, f)
    requires f.entities.Keys == f1.entities.Keys + {s.relations[r].source, s.relations[r].target}
    requires f.relations.Keys == f1.relations.Keys + {r}
    requires f.next == f1.next + (f.entities.Keys - f1.entities.Keys)
    ensures Collected(s, f0, done + {r}, f)
  {
    hide Ends, Copies;
    EndsGrow(s, done, r);
    assert f.entities.Keys == f0.entities.Keys + Ends(s, done + {r});
  }

  // One entity of the frontier: collect its relations and their ends.
  method ExpandEntity(s: Store, agent: string, x: Id, f0: Found) returns (f: Found)
    requires Copies(s, f0)
    ensures Copies(s, f)
    ensures f.entities.Keys == f0.entities.Keys + Neighbours(s, agent, x)
    ensures f.relations.Keys == f0.relations.Keys + TouchedBy(s, agent, {x})
    ensures f.next == f0.next + (f.entities.Keys - f0.entities.Keys)
  {
    hide Collected, Neighbours, TouchedBy, Copies;
    f := f0;
    var rows := set r | r in s.relations && Touches(s, agent, r, x);
    assert forall r :: r in rows ==> r in s.relations && Attached(s, s.relations[r]);
    hide Touches, Attached;
    ghost var done: set<Id> := {};
    var todo := rows;
    CollectedStart(s, f0);
    while todo != {}
      invariant todo <= rows && done + todo == rows
      invariant Collected(s, f0, done, f)
      decreases todo
    {
      var r :| r in todo;
      CollectedCopies(s, f0, done, f);
      ghost var f1 := f;
      f := CollectRow(s, r, f);
      CollectedGrows(s, f0, done, f1, r, f);
      todo := todo - {r};
      done := done + {r};
    }
    assert done == rows;
    CollectedAll(s, agent, x, f0, f);
  }

  lemma CollectedStart(s: Store, f: Found)
    requires Copies(s, f)
    ensures Collected(s, f, {}, f)
  {
  }

  lemma CollectedAll(s: Store, agent: string, x: Id, f0: Found, f: Found)
    requires Collected(s, f0, (set r | r in s.relations && Touches(s, agent, r, x)), f)
    ensures Copies(s, f)
    ensures f.entities.Keys == f0.entities.Keys + Neighbours(s, agent, x)
    ensures f.relations.Keys == f0.relations.Keys + TouchedBy(s, agent, {x})
    ensures f.next == f0.next + (f.entities.Keys - f0.entities.Keys)
  {
    RowsOfEntity(s, agent, x);
  }

  lemma CollectedCopies(s: Store, f0: Found, done: set<Id>, f: Found)
    requires Collected(s, f0, done, f)
    ensures Copies(s, f)
  {
  }

  lemma RowsOfEntity(s: Store, agent: string, x: Id)
    ensures var rows := set r | r in s.relations && Touches(s, agent, r, x);
            Ends(s, rows) == Neighbours(s, agent, x) && rows == TouchedBy(s, agent, {x})
  {
  }

  lemma ReachedGrows(s: Store, agent: string, xs: set<Id>, x: Id)
    ensures Reached(s, agent, xs + {x}) == Reached(s, agent, xs) + Neighbours(s, agent, x)
    ensures TouchedBy(s, agent, xs + {x}) == TouchedBy(s, agent, xs) + TouchedBy(s, agent, {x})
  {
  }

  // What the outer loop has after n levels: the ball of radius n, its new entities as the
  // frontier, and the relations of every entity expanded so far.
  ghost predicate LevelDone(s: Store, agent: string, seed: Id, n: nat, f: Found) {
    && Copies(s, f)
    && f.entities.Keys == Ball(s, agent, seed, n)
    && f.next == Ball(s, agent, seed, n) - Expanded(s, agent, seed, n)
    && f.relations.Keys == TouchedBy(s, agent, Expanded(s, agent, seed, n))
  }

  // The middle of a level: the entities `done` of the frontier are expanded.
  ghost predicate LevelPartlyDone(s: Store, agent: string, seed: Id, n: nat, done: set<Id>, f: Found) {
    && Copies(s, f)
    && f.entities.Keys == Ball(s, agent, seed, n) + Reached(s, agent, done)
    && f.relations.Keys == TouchedBy(s, agent, Expanded(s, agent, seed, n) + done)
    && f.next == f.entities.Keys - Ball(s, agent, seed, n)
  }

  lemma PartStarts(s: Store, agent: string, seed: Id, n: nat, f: Found)
    requires LevelDone(s, agent, seed, n, f)
    ensures LevelPartlyDone(s, agent, seed, n, {}, f.(next := {}))
  {
    assert Reached(s, agent, {}) == {};
    assert Expanded(s, agent, seed, n) + {} == Expanded(s, agent, seed, n);
  }

  lemma PartGrows(s: Store, agent: string, seed: Id, n: nat, done: set<Id>, f0: Found, x: Id, f: Found)
    requires LevelPartlyDone(s, agent, seed, n, done, f0)
    requires Copies(s, f)
    requires f.entities.Keys == f0.entities.Keys + Neighbours(s, agent, x)
    requires f.relations.Keys == f0.relations.Keys + TouchedBy(s, agent, {x})
    requires f.next == f0.next + (f.entities.Keys - f0.entities.Keys)
    ensures LevelPartlyDone(s, agent, seed, n, done + {x}, f)
  {
    hide Reached, Neighbours, TouchedBy, Ball, Expanded, Copies;
    var inner := Expanded(s, agent, seed, n);
    ReachedGrows(s, agent, done, x);
    ReachedGrows(s, agent, inner + done, x);
    assert inner + (done + {x}) == inner + done + {x};
  }

  lemma PartEnds(s: Store, agent: string, seed: Id, n: nat, f: Found)
    requires LevelPartlyDone(s, agent, seed, n, Ball(s, agent, seed, n) - Expanded(s, agent, seed, n), f)
    ensures LevelDone(s, agent, seed, n + 1, f)
  {
    LevelIsComplete(s, agent, seed, n);
    assert Expanded(s, agent, seed, n + 1) == Ball(s, agent, seed, n);
    hide Reached, TouchedBy, Ball;
  }

  // One level: expand every entity of the frontier.
  method ExpandLevel(s: Store, agent: string, ghost seed: Id, ghost level: nat, f0: Found) returns (f: Found)
    requires LevelDone(s, agent, seed, level, f0)
    ensures LevelDone(s, agent, seed, level + 1, f)
  {
    assert f0.next == Ball(s, agent, seed, level) - Expanded(s, agent, seed, level);
    f := f0.(next := {});
    var todo := f0.next;
    ghost var done: set<Id> := {};
    PartStarts(s, agent, seed, level, f0);
    hide LevelDone, Ball, Expanded, Neighbours, TouchedBy;
    while todo != {}
      invariant todo <= f0.next && done == f0.next - todo
      invariant LevelPartlyDone(s, agent, seed, level, done, f)
      decreases todo
    {
      var x :| x in todo;
      ghost var f1 := f;
      f := ExpandEntity(s, agent, x, f);
      PartGrows(s, agent, seed, level, done, f1, x, f);
      todo := todo - {x};
      done := done + {x};
    }
    assert done == f0.next;
    PartEnds(s, agent, seed, level, f);
  }

  lemma LevelIsComplete(s: Store, agent: string, seed: Id, level: nat)
    ensures var ball, inner := Ball(s, agent, seed, level), Expanded(s, agent, seed, level);
            ball + Reached(s, agent, ball - inner) == Ball(s, agent, seed, level + 1) && inner + (ball - inner) == ball
  {
    var ball, inner := Ball(s, agent, seed, level), Expanded(s, agent, seed, level);
    if level > 0 {
      BallGrows(s, agent, seed, level - 1, level);
    }
    forall y | y in Reached(s, agent, ball) ensures y in ball + Reached(s, agent, ball - inner) {
      var x :| x in ball && y in Neighbours(s, agent, x);
      if x in inner {
        assert y in Reached(s, agent, inner);
      }
    }
  }

  // The loop may stop early: an empty frontier stays empty.
  lemma {:induction false} NothingLeft(s: Store, agent: string, seed: Id, level: nat, hops: nat, f: Found)
    requires level <= hops && f.next == {} && LevelDone(s, agent, seed, level, f)
    ensures LevelDone(s, agent, seed, hops, f)
    decreases hops - level
  {
    if level < hops {
      NextIsEmpty(s, agent, seed, level);
      NothingLeft(s, agent, seed, level + 1, hops, f);
    }
  }

  lemma NextIsEmpty(s: Store, agent: string, seed: Id, level: nat)
    requires Ball(s, agent, seed, level) - Expanded(s, agent, seed, level) == {}
    ensures Ball(s, agent, seed, level + 1) == Ball(s, agent, seed, level) == Expanded(s, agent, seed, level)
  {
    var ball, inner := Ball(s, agent, seed, level), Expanded(s, agent, seed, level);
    assert forall x :: x in ball && x !in inner ==> x in ball - inner;
    assert level == 0 ==> seed in ball - inner;
    if level > 0 {
      BallGrows(s, agent, seed, level - 1, level);
    }
  }

  method Traverse(s: Store, agent: string, seed: Id, hops: int) returns (f: Found)
    requires seed in s.entities
    ensures LevelDone(s, agent, seed, Max(hops, 0), f)
  {
    f := Found(map[seed := s.entities[seed]], map[], {seed});
    var level: nat := 0;
    assert LevelDone(s, agent, seed, 0, f);
    hide LevelDone;
    while level < hops && f.next != {}
      invariant level <= Max(hops, 0)
      invariant LevelDone(s, agent, seed, level, f)
      decreases hops - level
    {
      f := ExpandLevel(s, agent, seed, level, f);
      level := level + 1;
    }
    if level < hops {
      NothingLeft(s, agent, seed, level, hops, f);
    }
  }

  // The result of the loop in terms of paths.
  lemma FoundIsWithin(s: Store, agent: string, seed: Id, n: nat, f: Found)
    requires LevelDone(s, agent, seed, n, f)
    ensures forall x :: x in f.entities <==> Within(s, agent, seed, x, n)
    ensures forall r :: r in f.relations <==>
              n > 0 && exists x :: Within(s, agent, seed, x, n - 1) && Touches(s, agent, r, x)
  {
    hide Within, Touches, TouchedBy, Ball, Copies;
    forall x ensures x in f.entities <==> Within(s, agent, seed, x, n) {
      BallIsWithin(s, agent, seed, n, x);
    }
    forall r ensures r in f.relations <==>
                     n > 0 && exists x :: Within(s, agent, seed, x, n - 1) && Touches(s, agent, r, x)
    {
      if n > 0 {
        var m: nat := n - 1;
        forall x ensures Within(s, agent, seed, x, m) <==> x in Ball(s, agent, seed, m) {
          BallIsWithin(s, agent, seed, m, x);
        }
        TouchedByMembers(s, agent, Ball(s, agent, seed, m), r);
      } else {
        TouchedByMembers(s, agent, {}, r);
      }
    }
  }

  lemma TouchedByMembers(s: Store, agent: string, xs: set<Id>, r: Id)
    ensures r in TouchedBy(s, agent, xs) <==> exists x :: x in xs && Touches(s, agent, r, x)
  {
  }

  // Nothing returned points outside the result, and more hops return more.
  lemma ResultIsClosed(s: Store, agent: string, seed: Id, n: nat, f: Found)
    requires LevelDone(s, agent, seed, n, f)
    ensures forall r :: r in f.relations ==> f.relations[r].source in f.entities && f.relations[r].target in f.entities
  {
    forall r | r in f.relations ensures f.relations[r].source in f.entities && f.relations[r].target in f.entities {
      var x :| x in Expanded(s, agent, seed, n) && Touches(s, agent, r, x);
      assert f.relations[r].source in Neighbours(s, agent, x) && f.relations[r].target in Neighbours(s, agent, x);
    }
  }

  lemma ResultGrows(s: Store, agent: string, seed: Id, m: nat, f: Found, n: nat, g: Found)
    requires m <= n && LevelDone(s, agent, seed, m, f) && LevelDone(s, agent, seed, n, g)
    ensures f.entities.Keys <= g.entities.Keys && f.relations.Keys <= g.relations.Keys
  {
    hide Reached, Touches, TouchedBy, Copies;
    BallGrows(s, agent, seed, m, n);
    if m > 0 {
      BallGrows(s, agent, seed, m - 1, n - 1);
    }
    TouchedByGrows(s, agent, Expanded(s, agent, seed, m), Expanded(s, agent, seed, n));
  }

  lemma TouchedByGrows(s: Store, agent: string, xs: set<Id>, ys: set<Id>)
    requires xs <= ys
    ensures TouchedBy(s, agent, xs) <= TouchedBy(s, agent, ys)
  {
  }

  // With at least |entities| - 1 hops, the result is the connected component of the seed.
  lemma ResultIsComponent(s: Store, agent: string, seed: Id, hops: nat, f: Found, y: Id)
    requires seed in s.entities && hops + 1 >= |s.entities| && LevelDone(s, agent, seed, hops, f)
    ensures y in f.entities <==> exists n: nat :: Within(s, agent, seed, y, n)
  {
    BallIsWithin(s, agent, seed, hops, y);
    forall n: nat | Within(s, agent, seed, y, n) ensures y in f.entities {
      BallIsWithin(s, agent, seed, n, y);
      BallIsComponent(s, agent, seed, hops, n);
    }
  }
}
