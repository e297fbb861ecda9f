// The knowledge graph store (backend/app/db/knowledge_graph.py), calls not overlapping.
module KnowledgeGraph {
  import opened Prelude
  import opened GraphTraversal
  import Text

  // Outcome of a call that may raise an integrity error.
  datatype Outcome<+T> = Done(value: T) | Raised

  datatype EntityKey = EntityKey(agent: string, name: string, kind: string)

  datatype RelationKey = RelationKey(agent: string, source: Id, target: Id, kind: string)

  const NO_PROPERTIES := "{}"
  const NEW_IMPORTANCE: real := 0.5

  // The calls made so far; an upsert carries the id generated for it, used only when the row is new.
  datatype Call =
    | Mentioned(newId: Id, key: EntityKey, properties: string)
    | Promoted(id: Id, boost: real)
    | Related(newId: Id, relation: RelationKey, confidence: real, properties: string)
    | Deleted(id: Id)

  function Normal(name: string): string { Text.Strip(Text.Lower(name)) }

  function KeyOf(e: Entity): EntityKey { EntityKey(e.agent, e.name, e.kind) }

  function RelationKeyOf(r: Relation): RelationKey { RelationKey(r.agent, r.source, r.target, r.kind) }

  // A normalised name has no upper-case ASCII letter and no white space at its ends; character by
  // character it is the lower case of a stretch of the given name, with only white space outside.
  lemma NormalMeans(name: string) returns (start: nat)
    ensures var r := Normal(name);
            && (forall i :: 0 <= i < |r| ==> !('A' <= r[i] <= 'Z'))
            && (r != "" ==> !Text.IsSpace(r[0]) && !Text.IsSpace(r[|r| - 1]))
            && start + |r| <= |name|
            && (forall i :: 0 <= i < |r| ==> Text.IsLowerOf(r[i], name[start + i]))
            && (forall i :: 0 <= i < start || start + |r| <= i < |name| ==> Text.IsSpace(name[i]))
  {
    var t := Text.Lower(name);
    Text.StripIsStripped(t);
    start := Text.StripIsSlice(t);
    var r := Text.Strip(t);
    hide Text.Strip;
    forall i | 0 <= i < |r| ensures r[i] == t[start + i] == Text.LowerChar(name[start + i]) {}
    forall i | 0 <= i < |name| ensures Text.IsSpace(t[i]) <==> Text.IsSpace(name[i]) {
      Text.WhiteSpaceOfAscii(name[i]);
      Text.WhiteSpaceOfAscii(t[i]);
    }
  }

  // Normalising twice is normalising once.
  lemma NormalIsNormal(name: string)
    ensures Normal(Normal(name)) == Normal(name)
  {
    var start := NormalMeans(name);
    var r := Normal(name);
    hide Normal;
    assert Text.Lower(r) == r;
    Text.StripFixesStripped(r);
    assert Normal(r) == Text.Strip(Text.Lower(r)) by { NormalIs(r); }
  }

  lemma NormalIs(name: string)
    ensures Normal(name) == Text.Strip(Text.Lower(name))
  {
  }

  // The two names are the same up to ASCII case and outer white space: cores of one length whose
  // characters have one lower case, with white space around them.
  ghost predicate SameName(a: string, b: string) { exists i: nat, j: nat, n: nat :: SameCores(a, i, b, j, n) }

  ghost predicate SameCores(a: string, i: nat, b: string, j: nat, n: nat) {
    && i + n <= |a| && j + n <= |b|
    && OnlySpace(a[..i]) && OnlySpace(a[i + n..])
    && OnlySpace(b[..j]) && OnlySpace(b[j + n..])
    && Text.SameButCase(a[i..i + n], b[j..j + n])
  }

  predicate OnlySpace(s: string) { forall i :: 0 <= i < |s| ==> Text.IsSpace(s[i]) }

  lemma LowerOfCore(a: string, i: nat, n: nat)
    requires i + n <= |a| && OnlySpace(a[..i]) && OnlySpace(a[i + n..])
    ensures Normal(a) == Text.Strip(Text.Lower(a[i..i + n]))
  {
    var x, y, z := Text.Lower(a[..i]), Text.Lower(a[i..i + n]), Text.Lower(a[i + n..]);
    assert Text.Lower(a) == x + y + z;
    forall k | 0 <= k < |x| ensures Text.IsSpace(x[k]) {
      Text.WhiteSpaceOfAscii(a[..i][k]);
    }
    forall k | 0 <= k < |z| ensures Text.IsSpace(z[k]) {
      Text.WhiteSpaceOfAscii(a[i + n..][k]);
    }
    Text.StripOfPadded(x, y, z);
  }

  // Names that differ only in case and outer white space have one normal form.
  lemma SameNameSameNormal(a: string, b: string)
    requires SameName(a, b)
    ensures Normal(a) == Normal(b)
  {
    var i: nat, j: nat, n: nat :| SameCores(a, i, b, j, n);
    LowerOfCore(a, i, n);
    LowerOfCore(b, j, n);
    var x, y := a[i..i + n], b[j..j + n];
    forall k | 0 <= k < n ensures Text.LowerChar(x[k]) == Text.LowerChar(y[k]) {
      Text.LowerIsLower(x[k]);
      Text.LowerIsLower(y[k]);
    }
    assert Text.Lower(x) == Text.Lower(y);
  }

  // ------------------------------------------------------------ lives, by key

  // What has happened to a row since it was created.
  datatype Touch = Mention(properties: string) | Promotion(boost: real)

  datatype Use = Use(confidence: real, properties: string)

  datatype Life<+T> = Life(id: Id, events: seq<T>)

  function Lived<T>(life: Option<Life<T>>, newId: Id, event: T): Option<Life<T>> {
    if life.Some? then Some(Life(life.value.id, life.value.events + [event])) else Some(Life(newId, [event]))
  }

  predicate Has<T>(life: Option<Life<T>>, id: Id) { life.Some? && life.value.id == id }

  function EntityStep(life: Option<Life<Touch>>, call: Call, k: EntityKey): Option<Life<Touch>> {
    match call
    case Mentioned(newId, k', p) => if k' == k then Lived(life, newId, Mention(p)) else life
    case Promoted(id, boost) => if Has(life, id) then Lived(life, id, Promotion(boost)) else life
    case Related(_, _, _, _) => life
    case Deleted(id) => if Has(life, id) then None else life
  }

  // The upserts of key k, and the promotions of its row, since the row was created.
  function EntityLife(log: seq<Call>, k: EntityKey): Option<Life<Touch>> {
    if log == [] then None else EntityStep(EntityLife(log[..|log| - 1], k), log[|log| - 1], k)
  }

  function RelationStep(life: Option<Life<Use>>, call: Call, k: RelationKey): Option<Life<Use>> {
    match call
    case Related(newId, k', c, p) => if k' == k then Lived(life, newId, Use(c, p)) else life
    case Deleted(id) => if id == k.source || id == k.target then None else life
    case _ => life
  }

  // The upserts of relation k since it was last without an end.
  function RelationLife(log: seq<Call>, k: RelationKey): Option<Life<Use>> {
    if log == [] then None else RelationStep(RelationLife(log[..|log| - 1], k), log[|log| - 1], k)
  }

  // The last properties given that are not empty.
  function Effective(events: seq<Touch>): string {
    if events == [] then NO_PROPERTIES
    else
      var last := events[|events| - 1];
      if last.Mention? && last.properties != NO_PROPERTIES then last.properties else Effective(events[..|events| - 1])
  }

  function Capped(x: real): real { if x <= 1.0 then x else 1.0 }

  // The boosts added up, capped after each.
  function Importance(events: seq<Touch>): real {
    if events == [] then NEW_IMPORTANCE
    else
      var last, before := events[|events| - 1], Importance(events[..|events| - 1]);
      if last.Promotion? then Capped(before + last.boost) else before
  }

  // The row of key k after these events.
  function EntityRow(k: EntityKey, events: seq<Touch>): Entity {
    Entity(k.agent, k.name, k.kind, Effective(events), |events|, Importance(events))
  }

  ghost predicate IsMaximum(c: real, uses: seq<Use>) {
    && (exists i :: 0 <= i < |uses| && uses[i].confidence == c)
    && (forall i :: 0 <= i < |uses| ==> uses[i].confidence <= c)
  }

  // The row of relation k after these upserts: the first one's properties, the greatest confidence, and their number.
  ghost predicate IsRelationRow(r: Relation, k: RelationKey, uses: seq<Use>) {
    && uses != []
    && IsMaximum(r.confidence, uses)
    && r == Relation(k.agent, k.source, k.target, k.kind, uses[0].properties, r.confidence, |uses|)
  }

  // ------------------------------------------------------------ the store and its log

  ghost predicate EntityFollows(s: Store, log: seq<Call>, k: EntityKey) {
    var life := EntityLife(log, k);
    life.Some? ==> life.value.id in s.entities && s.entities[life.value.id] == EntityRow(k, life.value.events)
  }

  // Each life has its row, and each row is the one its key's life names.
  ghost predicate EntitiesFollowLog(s: Store, log: seq<Call>) {
    && (forall k :: EntityFollows(s, log, k))
    && (forall i :: i in s.entities ==> Has(EntityLife(log, KeyOf(s.entities[i])), i))
  }

  ghost predicate RelationFollows(s: Store, log: seq<Call>, k: RelationKey) {
    var life := RelationLife(log, k);
    life.Some? ==> life.value.id in s.relations && IsRelationRow(s.relations[life.value.id], k, life.value.events)
  }

  ghost predicate RelationsFollowLog(s: Store, log: seq<Call>) {
    && (forall k :: RelationFollows(s, log, k))
    && (forall i :: i in s.relations ==> Has(RelationLife(log, RelationKeyOf(s.relations[i])), i))
  }

  // UNIQUE(agent_id, name, entity_type).
  ghost predicate EntitiesUnique(entities: map<Id, Entity>) {
    forall i, j :: i in entities && j in entities && KeyOf(entities[i]) == KeyOf(entities[j]) ==> i == j
  }

  ghost predicate RelationsUnique(relations: map<Id, Relation>) {
    forall i, j :: i in relations && j in relations && RelationKeyOf(relations[i]) == RelationKeyOf(relations[j]) ==>
      i == j
  }

  // No dangling relation, and an agent's relations join its own entities.
  ghost predicate RelationsAttached(s: Store) {
    forall r :: r in s.relations ==>
      && Attached(s, s.relations[r])
      && s.entities[s.relations[r].source].agent == s.relations[r].agent
      && s.entities[s.relations[r].target].agent == s.relations[r].agent
  }

  ghost predicate NamesNormal(s: Store) {
    forall i :: i in s.entities ==> Normal(s.entities[i].name) == s.entities[i].name
  }

  ghost predicate Structured(s: Store) {
    EntitiesUnique(s.entities) && RelationsUnique(s.relations) && RelationsAttached(s) && NamesNormal(s)
  }

  ghost predicate Consistent(s: Store, log: seq<Call>) {
    Structured(s) && EntitiesFollowLog(s, log) && RelationsFollowLog(s, log)
  }

  ghost predicate HasEntity(s: Store, key: EntityKey) { exists i :: i in s.entities && KeyOf(s.entities[i]) == key }

  ghost predicate HasRelation(s: Store, key: RelationKey) {
    exists i :: i in s.relations && RelationKeyOf(s.relations[i]) == key
  }

  lemma ConsistentParts(s: Store, log: seq<Call>)
    requires Consistent(s, log)
    ensures EntitiesUnique(s.entities) && RelationsUnique(s.relations) && RelationsAttached(s)
  {
  }

  // ------------------------------------------------------------ the log determines the store

  lemma OneMaximum(a: real, b: real, uses: seq<Use>)
    requires IsMaximum(a, uses) && IsMaximum(b, uses)
    ensures a == b
  {
    var i :| 0 <= i < |uses| && uses[i].confidence == a;
    assert a <= b;
  }

  lemma EntitiesIncluded(a: Store, b: Store, log: seq<Call>, i: Id)
    requires EntitiesFollowLog(a, log) && EntitiesFollowLog(b, log) && i in a.entities
    ensures i in b.entities && b.entities[i] == a.entities[i]
  {
    hide EntityLife, EntityRow;
    var k := KeyOf(a.entities[i]);
    assert EntityFollows(a, log, k) && EntityFollows(b, log, k);
  }

  lemma RelationsIncluded(a: Store, b: Store, log: seq<Call>, i: Id)
    requires RelationsFollowLog(a, log) && RelationsFollowLog(b, log) && i in a.relations
    ensures i in b.relations && b.relations[i] == a.relations[i]
  {
    hide RelationLife, IsMaximum;
    var k := RelationKeyOf(a.relations[i]);
    assert RelationFollows(a, log, k) && RelationFollows(b, log, k);
    OneMaximum(a.relations[i].confidence, b.relations[i].confidence, RelationLife(log, k).value.events);
  }

  // Whatever the calls were, two stores that are consistent with them are the same store: every
  // row, its id, its key, its counters, its properties and its scores.
  lemma LogDeterminesStore(a: Store, b: Store, log: seq<Call>)
    requires Consistent(a, log) && Consistent(b, log)
    ensures a == b
  {
    hide EntitiesFollowLog, RelationsFollowLog, Structured;
    forall i | i in a.entities || i in b.entities
      ensures i in a.entities && i in b.entities && a.entities[i] == b.entities[i]
    {
      if i in a.entities {
        EntitiesIncluded(a, b, log, i);
      } else {
        EntitiesIncluded(b, a, log, i);
      }
    }
    forall i | i in a.relations || i in b.relations
      ensures i in a.relations && i in b.relations && a.relations[i] == b.relations[i]
    {
      if i in a.relations {
        RelationsIncluded(a, b, log, i);
      } else {
        RelationsIncluded(b, a, log, i);
      }
    }
    assert a.entities == b.entities && a.relations == b.relations;
  }

  // By key: the one row of a key counts the upserts of that key since its creation and the promotions of the row;
  // a key without such a row has not been upserted since its row was last deleted.
  lemma RowOfKey(s: Store, log: seq<Call>, k: EntityKey)
    requires Consistent(s, log)
    ensures EntityLife(log, k).Some? <==> HasEntity(s, k)
    ensures forall i :: i in s.entities && KeyOf(s.entities[i]) == k ==>
      Has(EntityLife(log, k), i) && s.entities[i] == EntityRow(k, EntityLife(log, k).value.events)
  {
    hide EntityLife, Effective, Importance;
    assert EntityFollows(s, log, k);
    if EntityLife(log, k).Some? {
      assert KeyOf(s.entities[EntityLife(log, k).value.id]) == k;
    }
  }

  // ------------------------------------------------------------ what each call keeps

  lemma LogStep(log: seq<Call>, call: Call)
    ensures forall k :: RelationLife(log + [call], k) == RelationStep(RelationLife(log, k), call, k)
    ensures forall k :: EntityLife(log + [call], k) == EntityStep(EntityLife(log, k), call, k)
  {
    assert (log + [call])[..|log|] == log;
  }

  // A call that does not concern relations leaves what the log says about them.
  lemma RelationsStillFollow(s: Store, s': Store, log: seq<Call>, call: Call)
    requires RelationsFollowLog(s, log) && s'.relations == s.relations
    requires call.Mentioned? || call.Promoted?
    ensures RelationsFollowLog(s', log + [call])
  {
    LogStep(log, call);
    hide RelationLife, EntityLife;
    forall k ensures RelationFollows(s', log + [call], k) {
      assert RelationFollows(s, log, k);
    }
  }

  lemma EntitiesStillFollow(s: Store, s': Store, log: seq<Call>, call: Call)
    requires EntitiesFollowLog(s, log) && s'.entities == s.entities && call.Related?
    ensures EntitiesFollowLog(s', log + [call])
  {
    LogStep(log, call);
    hide RelationLife, EntityLife, EntityRow;
    forall k ensures EntityFollows(s', log + [call], k) {
      assert EntityFollows(s, log, k);
    }
  }

  // The row of a mentioned entity.
  function Mentioning(e: Entity, properties: string): Entity {
    e.(mentions := e.mentions + 1, properties := if properties != NO_PROPERTIES then properties else e.properties)
  }

  function Promoting(e: Entity, boost: real): Entity {
    e.(mentions := e.mentions + 1, importance := Capped(e.importance + boost))
  }

  lemma EntityRowStep(k: EntityKey, events: seq<Touch>, p: string, boost: real)
    ensures EntityRow(k, events + [Mention(p)]) == Mentioning(EntityRow(k, events), p)
    ensures EntityRow(k, events + [Promotion(boost)]) == Promoting(EntityRow(k, events), boost)
    ensures EntityRow(k, [Mention(p)]) == Entity(k.agent, k.name, k.kind, p, 1, NEW_IMPORTANCE)
  {
    assert (events + [Mention(p)])[..|events|] == events;
    assert (events + [Promotion(boost)])[..|events|] == events;
    var one := [Mention(p)];
    assert one[..0] == [];
    assert Effective(one) == p;
    assert Importance(one) == NEW_IMPORTANCE;
  }

  // Writing row id of key k, after a call that touches the life of k only.
  lemma EntityWriteFollows(s: Store, log: seq<Call>, call: Call, id: Id, k: EntityKey, e: Entity)
    requires EntitiesFollowLog(s, log)
    requires forall k' :: k' != k ==> EntityLife(log + [call], k') == EntityLife(log, k')
    requires id in s.entities ==> KeyOf(s.entities[id]) == k
    requires Has(EntityLife(log + [call], k), id) && e == EntityRow(k, EntityLife(log + [call], k).value.events)
    requires id !in s.entities ==> !HasEntity(s, k)
    ensures EntitiesFollowLog(s.(entities := s.entities[id := e]), log + [call])
  {
    hide EntityLife, Effective, Importance;
    var s' := s.(entities := s.entities[id := e]);
    forall k' ensures EntityFollows(s', log + [call], k') {
      assert EntityFollows(s, log, k');
    }
    forall i | i in s'.entities ensures Has(EntityLife(log + [call], KeyOf(s'.entities[i])), i) {
      if i != id {
        assert Has(EntityLife(log, KeyOf(s.entities[i])), i);
        assert KeyOf(s.entities[i]) != k;
      }
    }
  }

  lemma EntityWriteKeepsStructure(s: Store, id: Id, e: Entity)
    requires Structured(s) && Normal(e.name) == e.name
    requires id in s.entities ==> KeyOf(e) == KeyOf(s.entities[id])
    requires id !in s.entities ==> !HasEntity(s, KeyOf(e))
    ensures Structured(s.(entities := s.entities[id := e]))
  {
    hide Normal;
    assert RelationsAttached(s.(entities := s.entities[id := e])) by {
      hide EntitiesUnique, RelationsUnique, NamesNormal;
    }
    hide RelationsUnique, RelationsAttached;
  }

  lemma MentionKeeps(s: Store, log: seq<Call>, id: Id, newId: Id, k: EntityKey, e: Entity, properties: string)
    requires Consistent(s, log) && Normal(k.name) == k.name
    requires if id in s.entities then KeyOf(s.entities[id]) == k && e == Mentioning(s.entities[id], properties)
             else id == newId && !HasEntity(s, k) && e == Entity(k.agent, k.name, k.kind, properties, 1, NEW_IMPORTANCE)
    ensures Consistent(s.(entities := s.entities[id := e]), log + [Mentioned(newId, k, properties)])
  {
    var s' := s.(entities := s.entities[id := e]);
    var call := Mentioned(newId, k, properties);
    RelationsStillFollow(s, s', log, call);
    RowOfKey(s, log, k);
    LogStep(log, call);
    var life := EntityLife(log, k);
    hide Normal, EntityLife, RelationLife, RelationsFollowLog, Structured, EntityRow;
    EntityRowStep(k, if life.Some? then life.value.events else [], properties, 0.0);
    EntityWriteKeepsStructure(s, id, e);
    EntityWriteFollows(s, log, call, id, k, e);
  }

  lemma PromoteKeeps(s: Store, log: seq<Call>, id: Id, boost: real)
    requires Consistent(s, log) && id in s.entities
    ensures Consistent(s.(entities := s.entities[id := Promoting(s.entities[id], boost)]), log + [Promoted(id, boost)])
  {
    var k, e := KeyOf(s.entities[id]), Promoting(s.entities[id], boost);
    var s' := s.(entities := s.entities[id := e]);
    var call := Promoted(id, boost);
    RelationsStillFollow(s, s', log, call);
    RowOfKey(s, log, k);
    LogStep(log, call);
    hide Normal, EntityLife, RelationLife, RelationsFollowLog, EntityRow, Capped;
    EntityRowStep(k, EntityLife(log, k).value.events, "", boost);
    forall k' | k' != k ensures !Has(EntityLife(log, k'), id) {
      LifeOfOtherKey(s, log, k', id);
    }
    EntityWriteKeepsStructure(s, id, e);
    EntityWriteFollows(s, log, call, id, k, e);
  }

  // Only the life of its own key names a row.
  lemma LifeOfOtherKey(s: Store, log: seq<Call>, k: EntityKey, id: Id)
    requires EntitiesFollowLog(s, log)
    requires id in s.entities ==> KeyOf(s.entities[id]) != k
    ensures !Has(EntityLife(log, k), id)
  {
    hide EntityLife, Effective, Importance;
    assert EntityFollows(s, log, k);
  }

  // Promoting an id that does not exist changes no row.
  lemma PromoteAbsentKeeps(s: Store, log: seq<Call>, id: Id, boost: real)
    requires Consistent(s, log) && id !in s.entities
    ensures Consistent(s, log + [Promoted(id, boost)])
  {
    var call := Promoted(id, boost);
    RelationsStillFollow(s, s, log, call);
    LogStep(log, call);
    hide EntityLife, RelationLife, RelationsFollowLog, Structured, EntityRow;
    forall k ensures EntityFollows(s, log + [call], k) && EntityLife(log + [call], k) == EntityLife(log, k) {
      LifeOfOtherKey(s, log, k, id);
      assert EntityFollows(s, log, k);
    }
  }

  // The row of a relation after one more upsert with confidence c.
  function Relating(r: Relation, c: real): Relation {
    r.(mentions := r.mentions + 1, confidence := if r.confidence >= c then r.confidence else c)
  }

  lemma RelationRowStep(r: Relation, k: RelationKey, uses: seq<Use>, c: real, p: string)
    ensures IsRelationRow(r, k, uses) ==> IsRelationRow(Relating(r, c), k, uses + [Use(c, p)])
    ensures IsRelationRow(Relation(k.agent, k.source, k.target, k.kind, p, c, 1), k, [Use(c, p)])
  {
    assert [Use(c, p)][0].confidence == c;
    if IsRelationRow(r, k, uses) {
      var i :| 0 <= i < |uses| && uses[i].confidence == r.confidence;
      var uses' := uses + [Use(c, p)];
      assert uses'[i].confidence == r.confidence && uses'[|uses|].confidence == c;
    }
  }

  lemma RelateKeeps(s: Store, log: seq<Call>, id: Id, newId: Id, k: RelationKey, r: Relation, c: real, p: string)
    requires Consistent(s, log)
    requires k.source in s.entities && k.target in s.entities
    requires s.entities[k.source].agent == k.agent && s.entities[k.target].agent == k.agent
    requires if id in s.relations then RelationKeyOf(s.relations[id]) == k && r == Relating(s.relations[id], c)
             else id == newId && !HasRelation(s, k) && r == Relation(k.agent, k.source, k.target, k.kind, p, c, 1)
    ensures Consistent(s.(relations := s.relations[id := r]), log + [Related(newId, k, c, p)])
  {
    var s' := s.(relations := s.relations[id := r]);
    var call := Related(newId, k, c, p);
    EntitiesStillFollow(s, s', log, call);
    RelationWriteKeepsStructure(s, id, r);
    hide Structured, EntitiesFollowLog;
    RelateFollows(s, log, id, newId, k, r, c, p);
  }

  lemma RelationWriteKeepsStructure(s: Store, id: Id, r: Relation)
    requires Structured(s) && Attached(s, r)
    requires s.entities[r.source].agent == r.agent && s.entities[r.target].agent == r.agent
    requires id in s.relations ==> RelationKeyOf(s.relations[id]) == RelationKeyOf(r)
    requires id !in s.relations ==> !HasRelation(s, RelationKeyOf(r))
    ensures Structured(s.(relations := s.relations[id := r]))
  {
    hide Normal;
  }

  lemma RelateFollows(s: Store, log: seq<Call>, id: Id, newId: Id, k: RelationKey, r: Relation, c: real, p: string)
    requires RelationsFollowLog(s, log)
    requires if id in s.relations then RelationKeyOf(s.relations[id]) == k && r == Relating(s.relations[id], c)
             else id == newId && !HasRelation(s, k) && r == Relation(k.agent, k.source, k.target, k.kind, p, c, 1)
    ensures RelationsFollowLog(s.(relations := s.relations[id := r]), log + [Related(newId, k, c, p)])
  {
    var s' := s.(relations := s.relations[id := r]);
    var call := Related(newId, k, c, p);
    var log' := log + [call];
    LogStep(log, call);
    hide RelationLife, EntityLife, IsMaximum;
    assert RelationFollows(s, log, k);
    var life := RelationLife(log, k);
    if life.Some? {
      assert RelationKeyOf(s.relations[life.value.id]) == k;
      RelationRowStep(s.relations[life.value.id], k, life.value.events, c, p);
    } else {
      RelationRowStep(r, k, [], c, p);
    }
    assert Has(RelationLife(log', k), id) && IsRelationRow(r, k, RelationLife(log', k).value.events);
    forall k' ensures RelationFollows(s', log', k') {
      assert RelationFollows(s, log, k');
    }
    forall i | i in s'.relations ensures Has(RelationLife(log', RelationKeyOf(s'.relations[i])), i) {
      if i != id {
        assert Has(RelationLife(log, RelationKeyOf(s.relations[i])), i);
      }
    }
  }

  function Without(s: Store, id: Id): Store {
    Store(s.entities - {id},
          map r | r in s.relations && s.relations[r].source != id && s.relations[r].target != id :: s.relations[r])
  }

  lemma DeleteKeeps(s: Store, log: seq<Call>, id: Id)
    requires Consistent(s, log)
    ensures Consistent(Without(s, id), log + [Deleted(id)])
  {
    hide Structured, EntitiesFollowLog, RelationsFollowLog, Without;
    DeleteKeepsStructure(s, id);
    EntitiesFollowDelete(s, log, id);
    RelationsFollowDelete(s, log, id);
  }

  lemma DeleteKeepsStructure(s: Store, id: Id)
    requires Structured(s)
    ensures Structured(Without(s, id))
  {
    hide Without;
    WithoutIsPart(s, id);
    hide EntitiesUnique, RelationsUnique, RelationsAttached, NamesNormal;
    PartIsUnique(s, Without(s, id));
    PartIsAttached(s, Without(s, id));
  }

  ghost predicate IsPart(s': Store, s: Store) {
    && (forall i :: i in s'.entities ==> i in s.entities && s'.entities[i] == s.entities[i])
    && (forall r :: r in s'.relations ==> r in s.relations && s'.relations[r] == s.relations[r])
  }

  lemma WithoutIsPart(s: Store, id: Id)
    requires RelationsAttached(s)
    ensures IsPart(Without(s, id), s)
    ensures forall r :: r in Without(s, id).relations ==> Attached(Without(s, id), Without(s, id).relations[r])
  {
  }

  lemma PartIsUnique(s: Store, s': Store)
    requires IsPart(s', s) && EntitiesUnique(s.entities) && RelationsUnique(s.relations) && NamesNormal(s)
    ensures EntitiesUnique(s'.entities) && RelationsUnique(s'.relations) && NamesNormal(s')
  {
    hide Normal;
  }

  lemma PartIsAttached(s: Store, s': Store)
    requires IsPart(s', s) && RelationsAttached(s)
    requires forall r :: r in s'.relations ==> Attached(s', s'.relations[r])
    ensures RelationsAttached(s')
  {
  }

  lemma EntitiesFollowDelete(s: Store, log: seq<Call>, id: Id)
    requires EntitiesFollowLog(s, log)
    ensures EntitiesFollowLog(Without(s, id), log + [Deleted(id)])
  {
    LogStep(log, Deleted(id));
    hide EntityLife, RelationLife, EntityRow;
    var s' := Without(s, id);
    forall k ensures EntityFollows(s', log + [Deleted(id)], k) {
      assert EntityFollows(s, log, k);
    }
    forall i | i in s'.entities ensures Has(EntityLife(log + [Deleted(id)], KeyOf(s'.entities[i])), i) {
      assert i in s.entities && i != id && s'.entities[i] == s.entities[i];
    }
  }

  lemma RelationsFollowDelete(s: Store, log: seq<Call>, id: Id)
    requires RelationsFollowLog(s, log)
    ensures RelationsFollowLog(Without(s, id), log + [Deleted(id)])
  {
    LogStep(log, Deleted(id));
    hide EntityLife, RelationLife, IsMaximum;
    var s' := Without(s, id);
    forall k ensures RelationFollows(s', log + [Deleted(id)], k) {
      assert RelationFollows(s, log, k);
    }
    forall i | i in s'.relations ensures Has(RelationLife(log + [Deleted(id)], RelationKeyOf(s'.relations[i])), i) {
      assert i in s.relations && s'.relations[i] == s.relations[i];
    }
  }

  // ------------------------------------------------------------ upserts, as the callers see them

  // The row that has a key.
  ghost function Holder(entities: map<Id, Entity>, key: EntityKey): Option<Id> {
    if exists i :: i in entities && KeyOf(entities[i]) == key then
      var i :| i in entities && KeyOf(entities[i]) == key;
      Some(i)
    else None
  }

  lemma HolderIs(entities: map<Id, Entity>, key: EntityKey, i: Id)
    requires EntitiesUnique(entities) && i in entities && KeyOf(entities[i]) == key
    ensures Holder(entities, key) == Some(i)
  {
  }

  // The entities after an upsert.
  ghost function Upserted(entities: map<Id, Entity>, key: EntityKey, properties: string, newId: Id)
    : Outcome<map<Id, Entity>>
  {
    var holder := Holder(entities, key);
    if holder.Some? then Done(entities[holder.value := Mentioning(entities[holder.value], properties)])
    else if newId in entities then Raised
    else Done(entities[newId := Entity(key.agent, key.name, key.kind, properties, 1, NEW_IMPORTANCE)])
  }

  lemma MentioningKeepsKey(entities: map<Id, Entity>, properties: string)
    ensures forall e: Entity :: KeyOf(Mentioning(e, properties)) == KeyOf(e)
  {
  }

  // The WHERE clause of get_entity; an empty kind is no kind.
  predicate Matches(e: Entity, agent: string, name: string, kind: Option<string>) {
    e.agent == agent && e.name == name && (kind.Some? && kind.value != "" ==> e.kind == kind.value)
  }

  // ------------------------------------------------------------ traversal stays with one agent

  lemma {:induction false} BallOfAgent(s: Store, agent: string, seed: Id, n: nat)
    requires RelationsAttached(s) && seed in s.entities && s.entities[seed].agent == agent
    ensures forall x :: x in Ball(s, agent, seed, n) ==> x in s.entities && s.entities[x].agent == agent
  {
    if n > 0 {
      BallOfAgent(s, agent, seed, n - 1);
    }
  }

  // Every entity and relation a traversal finds belongs to the agent.
  lemma FoundOfAgent(s: Store, agent: string, seed: Id, n: nat, f: Found)
    requires RelationsAttached(s) && seed in s.entities && s.entities[seed].agent == agent
    requires LevelDone(s, agent, seed, n, f)
    ensures forall x :: x in f.entities ==> f.entities[x].agent == agent
    ensures forall r :: r in f.relations ==> f.relations[r].agent == agent
  {
    BallOfAgent(s, agent, seed, n);
    hide Ball, Expanded;
  }

  // ------------------------------------------------------------ the store

  class Graph {
    var store: Store
    ghost var log: seq<Call>

    ghost predicate Valid()
      reads this
    {
      Consistent(store, log)
    }

    constructor ()
      ensures Valid() && store == Store(map[], map[]) && log == []
    {
      store := Store(map[], map[]);
      log := [];
    }

    // `newId` is the generated id, not checked against the table; a clash raises when the row is
    // really new.
    method UpsertEntity(agent: string, name: string, kind: string, properties: string, newId: Id)
      returns (r: Outcome<Id>)
      requires Valid()
      modifies this
      ensures Valid()
      ensures store.relations == old(store.relations)
      ensures r.Raised? <==>
        newId in old(store.entities) && !HasEntity(old(store), EntityKey(agent, Normal(name), kind))
      ensures r.Raised? ==> store == old(store) && log == old(log)
      ensures r.Done? ==>
        && r.value in store.entities
        && store.entities == old(store.entities)[r.value := store.entities[r.value]]
        && KeyOf(store.entities[r.value]) == EntityKey(agent, Normal(name), kind)
        && (r.value in old(store.entities) ==>
              var e := old(store.entities)[r.value];
              store.entities[r.value] == e.(mentions := e.mentions + 1,
                                            properties := if properties != "{}" then properties else e.properties))
        && (r.value !in old(store.entities) ==>
              && r.value == newId
              && store.entities[r.value] == Entity(agent, Normal(name), kind, properties, 1, 0.5))
        && log == old(log) + [Mentioned(newId, EntityKey(agent, Normal(name), kind), properties)]
      ensures Upserted(old(store.entities), EntityKey(agent, Normal(name), kind), properties, newId)
           == if r.Done? then Done(store.entities) else Raised
    {
      NormalIsNormal(name);
      hide Consistent, Normal;
      ConsistentParts(store, log);
      var key := EntityKey(agent, Normal(name), kind);
      if i :| i in store.entities && KeyOf(store.entities[i]) == key {
        HolderIs(store.entities, key, i);
        var e := Mentioning(store.entities[i], properties);
        MentionKeeps(store, log, i, newId, key, e, properties);
        store := store.(entities := store.entities[i := e]);
        log := log + [Mentioned(newId, key, properties)];
        r := Done(i);
      } else if newId in store.entities {
        r := Raised;
      } else {
        var e := Entity(agent, Normal(name), kind, properties, 1, NEW_IMPORTANCE);
        MentionKeeps(store, log, newId, newId, key, e, properties);
        store := store.(entities := store.entities[newId := e]);
        log := log + [Mentioned(newId, key, properties)];
        r := Done(newId);
      }
    }

    // Check for the relation, then update or insert it.
    method WriteRelation(key: RelationKey, confidence: real, properties: string, newId: Id) returns (r: Outcome<Id>)
      requires Valid()
      requires key.source in store.entities && store.entities[key.source].agent == key.agent
      requires key.target in store.entities && store.entities[key.target].agent == key.agent
      modifies this
      ensures Valid()
      ensures store.entities == old(store.entities)
      ensures r.Raised? <==> newId in old(store.relations) && !HasRelation(old(store), key)
      ensures r.Raised? ==> store == old(store) && log == old(log)
      ensures r.Done? ==>
        && r.value in store.relations
        && store.relations == old(store.relations)[r.value := store.relations[r.value]]
        && RelationKeyOf(store.relations[r.value]) == key
        && (r.value in old(store.relations) ==>
              var row := old(store.relations)[r.value];
              store.relations[r.value] == row.(mentions := row.mentions + 1,
                                               confidence := if row.confidence >= confidence then row.confidence
                                                             else confidence))
        && (r.value !in old(store.relations) ==>
              && r.value == newId
              && store.relations[r.value]
                 == Relation(key.agent, key.source, key.target, key.kind, properties, confidence, 1))
        && log == old(log) + [Related(newId, key, confidence, properties)]
    {
      hide Consistent;
      if i :| i in store.relations && RelationKeyOf(store.relations[i]) == key {
        var row := Relating(store.relations[i], confidence);
        RelateKeeps(store, log, i, newId, key, row, confidence, properties);
        store := store.(relations := store.relations[i := row]);
        log := log + [Related(newId, key, confidence, properties)];
        r := Done(i);
      } else if newId in store.relations {
        r := Raised;
      } else {
        var row := Relation(key.agent, key.source, key.target, key.kind, properties, confidence, 1);
        RelateKeeps(store, log, newId, newId, key, row, confidence, properties);
        store := store.(relations := store.relations[newId := row]);
        log := log + [Related(newId, key, confidence, properties)];
        r := Done(newId);
      }
    }

    // Three transactions: the two ends are upserted, and stay so when the last insert raises.
    method UpsertRelation(agent: string, sourceName: string, sourceKind: string, targetName: string, targetKind: string,
                          kind: string, confidence: real, properties: string, newSource: Id, newTarget: Id,
                          newRelation: Id)
      returns (r: Outcome<Id>, ghost key: RelationKey)
      requires Valid()
      modifies this
      ensures Valid()
      ensures
        var first := Upserted(old(store.entities), EntityKey(agent, Normal(sourceName), sourceKind), "{}",
                               newSource);
        if first.Raised? then r.Raised? && store == old(store)
        else
          var second := Upserted(first.value, EntityKey(agent, Normal(targetName), targetKind), "{}",
                                  newTarget);
          if second.Raised? then r.Raised? && store == old(store).(entities := first.value)
          else
            && store.entities == second.value
            && (r.Raised? <==> newRelation in old(store.relations) && !HasRelation(old(store), key))
            && (r.Raised? ==> store.relations == old(store.relations))
            && key.source in store.entities && key.target in store.entities
            && KeyOf(store.entities[key.source]) == EntityKey(agent, Normal(sourceName), sourceKind)
            && KeyOf(store.entities[key.target]) == EntityKey(agent, Normal(targetName), targetKind)
            && key.agent == agent && key.kind == kind
      ensures r.Done? ==>
        && r.value in store.relations
        && RelationKeyOf(store.relations[r.value]) == key
        && store.relations == old(store.relations)[r.value := store.relations[r.value]]
        && (r.value in old(store.relations) ==>
              var row := old(store.relations)[r.value];
              store.relations[r.value] == row.(mentions := row.mentions + 1,
                                               confidence := if row.confidence >= confidence then row.confidence
                                                             else confidence))
        && (r.value !in old(store.relations) ==>
              && r.value == newRelation
              && store.relations[r.value]
                 == Relation(key.agent, key.source, key.target, key.kind, properties, confidence, 1))
        && log == old(log) + [Mentioned(newSource, EntityKey(agent, Normal(sourceName), sourceKind), "{}"),
                              Mentioned(newTarget, EntityKey(agent, Normal(targetName), targetKind), "{}"),
                              Related(newRelation, key, confidence, properties)]
    {
      hide Consistent, Normal, Upserted, Mentioning, Relating;
      key := RelationKey(agent, newSource, newTarget, kind);
      var source := UpsertEntity(agent, sourceName, sourceKind, NO_PROPERTIES, newSource);
      if source.Raised? {
        return Raised, key;
      }
      ghost var agentOfSource := store.entities[source.value].agent;
      var target := UpsertEntity(agent, targetName, targetKind, NO_PROPERTIES, newTarget);
      if target.Raised? {
        return Raised, key;
      }
      MentioningKeepsKey(old(store.entities), NO_PROPERTIES);
      var k := RelationKey(agent, source.value, target.value, kind);
      key := k;
      r := WriteRelation(k, confidence, properties, newRelation);
    }

    // Without a type (or with an empty one), an entity of that name with the most mentions.
    method GetEntity(agent: string, name: string, kind: Option<string>) returns (r: Option<Id>)
      ensures r.None? <==>
                forall i :: i in store.entities && store.entities[i].agent == agent
                            && store.entities[i].name == Normal(name) ==>
                  kind.Some? && kind.value != "" && store.entities[i].kind != kind.value
      ensures r.Some? ==>
                && r.value in store.entities
                && store.entities[r.value].agent == agent && store.entities[r.value].name == Normal(name)
                && (kind.Some? && kind.value != "" ==> store.entities[r.value].kind == kind.value)
                && forall i :: && i in store.entities && store.entities[i].agent == agent
                               && store.entities[i].name == Normal(name)
                               && (kind.Some? && kind.value != "" ==> store.entities[i].kind == kind.value) ==>
                     store.entities[i].mentions <= store.entities[r.value].mentions
    {
      r := None;
      var wanted := Normal(name);
      var todo := store.entities.Keys;
      while todo != {}
        invariant todo <= store.entities.Keys
        invariant r.None? ==> forall i :: i in store.entities && i !in todo ==>
            !Matches(store.entities[i], agent, wanted, kind)
        invariant r.Some? ==> r.value in store.entities && Matches(store.entities[r.value], agent, wanted, kind)
        invariant r.Some? ==>
                    forall i :: i in store.entities && i !in todo && Matches(store.entities[i], agent, wanted, kind) ==>
                      store.entities[i].mentions <= store.entities[r.value].mentions
        decreases todo
      {
        hide Normal, Matches;
        var i :| i in todo;
        var e := store.entities[i];
        if Matches(e, agent, wanted, kind) {
          if r.None? || store.entities[r.value].mentions < e.mentions {
            r := Some(i);
          }
        }
        todo := todo - {i};
      }
    }

    method PromoteEntity(id: Id, boost: real)
      requires Valid()
      modifies this
      ensures Valid() && log == old(log) + [Promoted(id, boost)]
      ensures id !in old(store.entities) ==> store == old(store)
      ensures id in old(store.entities) ==>
        var e := old(store.entities)[id];
        store == old(store).(entities := old(store.entities)[id :=
                               e.(mentions := e.mentions + 1,
                                  importance := if e.importance + boost <= 1.0 then e.importance + boost else 1.0)])
    {
      hide Consistent;
      if id in store.entities {
        PromoteKeeps(store, log, id, boost);
        store := store.(entities := store.entities[id := Promoting(store.entities[id], boost)]);
      } else {
        PromoteAbsentKeeps(store, log, id, boost);
      }
      log := log + [Promoted(id, boost)];
    }

    method DeleteEntity(id: Id) returns (deleted: bool)
      requires Valid()
      modifies this
      ensures Valid() && log == old(log) + [Deleted(id)]
      ensures deleted == (id in old(store.entities))
      ensures store == Without(old(store), id)
    {
      hide Consistent;
      DeleteKeeps(store, log, id);
      deleted := id in store.entities;
      store := Without(store, id);
      log := log + [Deleted(id)];
    }

    // traverse_graph: exactly the entities within `hops` links of the seed, and exactly the
    // relations touching an entity within hops - 1 links.
    method TraverseGraph(agent: string, name: string, hops: int) returns (seed: Option<Id>, f: Found)
      ensures seed.None? ==> f == Found(map[], map[], {})
      ensures seed.None? <==>
                forall i :: i in store.entities && store.entities[i].agent == agent ==>
                  store.entities[i].name != Normal(name)
      ensures seed.Some? ==>
                && seed.value in store.entities && Copies(store, f)
                && store.entities[seed.value].agent == agent && store.entities[seed.value].name == Normal(name)
                && forall i :: && i in store.entities && store.entities[i].agent == agent
                               && store.entities[i].name == Normal(name) ==>
                     store.entities[i].mentions <= store.entities[seed.value].mentions
      ensures seed.Some? ==> forall x :: x in f.entities <==> Within(store, agent, seed.value, x, Max(hops, 0))
      ensures seed.Some? ==> forall r :: r in f.relations <==>
        hops > 0 && exists x :: Within(store, agent, seed.value, x, hops - 1) && Touches(store, agent, r, x)
      ensures Valid() ==> forall x :: x in f.entities ==> f.entities[x].agent == agent
      ensures Valid() ==> forall r :: r in f.relations ==> f.relations[r].agent == agent
    {
      seed := GetEntity(agent, name, None);
      hide Normal, Consistent;
      if seed.None? {
        f := Found(map[], map[], {});
        return;
      }
      f := Traverse(store, agent, seed.value, hops);
      FoundIsWithin(store, agent, seed.value, Max(hops, 0), f);
      if Valid() {
        ConsistentParts(store, log);
        FoundOfAgent(store, agent, seed.value, Max(hops, 0), f);
      }
    }
  }

  // Three calls with names that differ in case and outer white space only: two upserts, then a lookup.
  method OneRowForAllNames(g: Graph, agent: string, a: string, b: string, c: string, kind: string,
                           p: string, q: string, firstId: Id, secondId: Id)
    returns (first: Outcome<Id>, second: Outcome<Id>, found: Option<Id>)
    requires g.Valid() && SameName(a, b) && SameName(a, c) && kind != ""
    modifies g
    ensures first.Done? ==>
              && second == first && found == Some(first.value)
              && first.value in g.store.entities
              && var before := old(g.store.entities);
              && g.store.entities[first.value].mentions
                 == (if first.value in before then before[first.value].mentions else 0) + 2
  {
    SameNameSameNormal(a, b);
    SameNameSameNormal(a, c);
    hide Normal, SameName;
    first := g.UpsertEntity(agent, a, kind, p, firstId);
    ConsistentParts(g.store, g.log);
    second := g.UpsertEntity(agent, b, kind, q, secondId);
    ConsistentParts(g.store, g.log);
    found := g.GetEntity(agent, c, Some(kind));
  }
}
