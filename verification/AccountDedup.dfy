// Merging duplicate backend rows (backend/scripts/dedup_ai_accounts_backends.py).
module AccountDedup {
  import opened Prelude
  import Text

  // A JSON value; only whether it is a string, and whether it is false in Python's sense, matters.
  datatype Json = Text(text: string) | Falsy(code: int) | Truthy(code: int)

  type Config = map<string, Json>

  // Column config: NULL or empty, not JSON, JSON but not an object, or an object.
  datatype Stored = Absent | Unparsable | NotObject | Object(config: Config)

  datatype Row = Row(id: string, kind: string, name: string, stored: Stored)

  datatype Key = Key(kind: string, field: string, value: string)

  const CONFIG_PATH := "config_path"
  const API_KEY_ENV := "api_key_env"
  const EMAIL := "email"

  // (cfg.get(field) or "").strip(), which raises for a true value that is not a string.
  function Field(cfg: Config, field: string): Option<string> {
    if field !in cfg then Some("")
    else match cfg[field]
      case Text(t) => Some(Text.Strip(t))
      case Falsy(_) => Some("")
      case Truthy(_) => None
  }

  // No field raises.
  predicate WellTyped(cfg: Config) {
    Field(cfg, CONFIG_PATH).Some? && Field(cfg, API_KEY_ENV).Some? && Field(cfg, EMAIL).Some?
  }

  function KeyFor(kind: string, cfg: Config): Option<Key>
    requires WellTyped(cfg)
  {
    var cp, env, email := Field(cfg, CONFIG_PATH).value, Field(cfg, API_KEY_ENV).value, Field(cfg, EMAIL).value;
    if cp != "" then Some(Key(kind, CONFIG_PATH, cp))
    else if env != "" then Some(Key(kind, API_KEY_ENV, env))
    else if email != "" then Some(Key(kind, EMAIL, email))
    else None
  }

  // The row does not make the script raise.
  predicate Readable(r: Row) { !r.stored.NotObject? && (r.stored.Object? ==> WellTyped(r.stored.config)) }

  // The key a row is grouped by; unparsable and keyless rows have none.
  function RowKey(r: Row): Option<Key>
    requires Readable(r)
  {
    if r.stored.Object? then KeyFor(r.kind, r.stored.config) else None
  }

  // ------------------------------------------------------------ what raises and what a key is, by JSON values

  // The row makes key_for raise: its config is JSON but no object, or one of the three fields holds a
  // true value that is not a string.
  predicate Raises(r: Row) {
    || r.stored.NotObject?
    || (r.stored.Object? &&
          exists f :: && f in {"config_path", "api_key_env", "email"}
                      && f in r.stored.config && r.stored.config[f].Truthy?)
  }

  // The field is missing, false, or nothing but white space.
  predicate BlankField(cfg: Config, f: string) {
    f in cfg ==> cfg[f].Falsy? || (cfg[f].Text? && Text.Strip(cfg[f].text) == "")
  }

  predicate HasText(cfg: Config, f: string) { f in cfg && cfg[f].Text? && Text.Strip(cfg[f].text) != "" }

  lemma ReadableIffNotRaises(r: Row)
    ensures Readable(r) <==> !Raises(r)
  {
    hide Text.Strip;
    if r.stored.Object? {
      var cfg := r.stored.config;
      assert WellTyped(cfg) <==>
        && !("config_path" in cfg && cfg["config_path"].Truthy?)
        && !("api_key_env" in cfg && cfg["api_key_env"].Truthy?)
        && !("email" in cfg && cfg["email"].Truthy?);
    }
  }

  // The key is the stripped text of the first of the three fields that has one.
  lemma KeyMeans(r: Row)
    requires Readable(r)
    ensures RowKey(r) ==
            if !r.stored.Object? then None
            else
              var cfg := r.stored.config;
              if HasText(cfg, "config_path") then Some(Key(r.kind, "config_path", Text.Strip(cfg["config_path"].text)))
              else if HasText(cfg, "api_key_env") then
                Some(Key(r.kind, "api_key_env", Text.Strip(cfg["api_key_env"].text)))
              else if HasText(cfg, "email") then Some(Key(r.kind, "email", Text.Strip(cfg["email"].text)))
              else None
    ensures r.stored.Object? ==>
              forall f :: f in {"config_path", "api_key_env", "email"} ==>
                (BlankField(r.stored.config, f) <==> !HasText(r.stored.config, f))
  {
    hide Text.Strip;
  }

  ghost predicate AllReadable(rows: seq<Row>) { forall i :: 0 <= i < |rows| ==> Readable(rows[i]) }

  ghost predicate UniqueIds(rows: seq<Row>) { forall i, j :: 0 <= i < j < |rows| ==> rows[i].id != rows[j].id }

  // ------------------------------------------------------------ merging

  // Updating a dict with each of the first n rows of a group in turn: later rows win.
  function Merge(bucket: seq<Row>, n: nat): Config
    requires n <= |bucket|
  {
    if n == 0 then map[]
    else if bucket[n - 1].stored.Object? then Merge(bucket, n - 1) + bucket[n - 1].stored.config
    else Merge(bucket, n - 1)
  }

  ghost predicate Grouped(bucket: seq<Row>, k: Key) {
    forall i :: 0 <= i < |bucket| ==> Readable(bucket[i]) && RowKey(bucket[i]) == Some(k)
  }

  predicate Sets(r: Row, f: string) { r.stored.Object? && f in r.stored.config }

  // Row i is the last of the first n that sets field f.
  ghost predicate LastToSet(bucket: seq<Row>, n: nat, f: string, i: nat)
    requires n <= |bucket|
  {
    i < n && Sets(bucket[i], f) && forall j :: i < j < n ==> !Sets(bucket[j], f)
  }

  lemma {:induction false} MergeHas(bucket: seq<Row>, n: nat, f: string)
    requires n <= |bucket|
    ensures f in Merge(bucket, n) <==> exists i: nat :: i < n && Sets(bucket[i], f)
  {
    if n > 0 {
      MergeHas(bucket, n - 1, f);
    }
  }

  lemma {:induction false} MergeLast(bucket: seq<Row>, n: nat, f: string) returns (i: nat)
    requires n <= |bucket| && f in Merge(bucket, n)
    ensures LastToSet(bucket, n, f, i) && Merge(bucket, n)[f] == bucket[i].stored.config[f]
  {
    if Sets(bucket[n - 1], f) {
      i := n - 1;
    } else {
      i := MergeLast(bucket, n - 1, f);
    }
  }

  // A field of the merge has the value of the last row that sets it.
  lemma MergeField(bucket: seq<Row>, n: nat, f: string)
    requires n <= |bucket|
    ensures f in Merge(bucket, n) <==> exists i: nat :: i < n && Sets(bucket[i], f)
    ensures f in Merge(bucket, n) ==>
      exists i: nat :: LastToSet(bucket, n, f, i) && Merge(bucket, n)[f] == bucket[i].stored.config[f]
  {
    hide Merge;
    MergeHas(bucket, n, f);
    if f in Merge(bucket, n) {
      var i := MergeLast(bucket, n, f);
    }
  }

  // What a field strips to in every row of a group, it strips to in the merge.
  lemma MergeKeepsField(bucket: seq<Row>, f: string, v: string)
    requires bucket != []
    requires forall i :: 0 <= i < |bucket| ==> bucket[i].stored.Object? && Field(bucket[i].stored.config, f) == Some(v)
    ensures Field(Merge(bucket, |bucket|), f) == Some(v)
  {
    hide Merge, Text.Strip;
    MergeField(bucket, |bucket|, f);
    if f !in Merge(bucket, |bucket|) {
      assert !Sets(bucket[0], f);
    }
  }

  // A field that is blank or well typed in every row is well typed in the merge.
  lemma MergeKeepsTypes(bucket: seq<Row>, f: string)
    requires forall i :: 0 <= i < |bucket| ==> bucket[i].stored.Object? && Field(bucket[i].stored.config, f).Some?
    ensures Field(Merge(bucket, |bucket|), f).Some?
  {
    hide Merge, Text.Strip;
    MergeField(bucket, |bucket|, f);
  }

  // The field that decides key k has its value, and the fields that would come first are blank.
  ghost predicate Carries(cfg: Config, k: Key) {
    && WellTyped(cfg)
    && k.value != ""
    && Field(cfg, k.field) == Some(k.value)
    && (k.field == CONFIG_PATH || Field(cfg, CONFIG_PATH) == Some(""))
    && (k.field == CONFIG_PATH || k.field == API_KEY_ENV || Field(cfg, API_KEY_ENV) == Some(""))
    && (k.field == CONFIG_PATH || k.field == API_KEY_ENV || k.field == EMAIL)
  }

  lemma KeyForCarries(kind: string, cfg: Config, k: Key)
    requires WellTyped(cfg)
    ensures KeyFor(kind, cfg) == Some(k) <==> k.kind == kind && Carries(cfg, k)
  {
    hide Field;
    assert |CONFIG_PATH| != |EMAIL| && CONFIG_PATH[0] != API_KEY_ENV[0] && |EMAIL| != |API_KEY_ENV|;
  }

  // The merged configuration has the key of its group.
  lemma MergeKeepsKey(bucket: seq<Row>, k: Key)
    requires bucket != [] && Grouped(bucket, k)
    ensures WellTyped(Merge(bucket, |bucket|)) && KeyFor(k.kind, Merge(bucket, |bucket|)) == Some(k)
  {
    forall i | 0 <= i < |bucket| ensures bucket[i].stored.Object? && Carries(bucket[i].stored.config, k) {
      hide KeyFor, Field, Carries, WellTyped;
      KeyForCarries(bucket[i].kind, bucket[i].stored.config, k);
    }
    MergeCarries(bucket, k);
    hide *;
    KeyForCarries(k.kind, Merge(bucket, |bucket|), k);
  }

  lemma MergeCarries(bucket: seq<Row>, k: Key)
    requires bucket != []
    requires forall i :: 0 <= i < |bucket| ==> bucket[i].stored.Object? && Carries(bucket[i].stored.config, k)
    ensures WellTyped(Merge(bucket, |bucket|)) && Carries(Merge(bucket, |bucket|), k)
  {
    hide Merge, Field, CONFIG_PATH, API_KEY_ENV, EMAIL;
    assert Carries(bucket[0].stored.config, k);
    MergeKeepsTypes(bucket, CONFIG_PATH);
    MergeKeepsTypes(bucket, API_KEY_ENV);
    MergeKeepsTypes(bucket, EMAIL);
    MergeKeepsField(bucket, k.field, k.value);
    if k.field != CONFIG_PATH {
      MergeKeepsField(bucket, CONFIG_PATH, "");
      if k.field != API_KEY_ENV {
        MergeKeepsField(bucket, API_KEY_ENV, "");
      }
    }
  }

  // ------------------------------------------------------------ groups

  predicate HasKey(r: Row, k: Key) { Readable(r) && RowKey(r) == Some(k) }

  // The rows among the first n that have key k, oldest first.
  function Bucket(rows: seq<Row>, k: Key, n: nat): seq<Row>
    requires n <= |rows|
  {
    if n == 0 then []
    else Bucket(rows, k, n - 1) + if HasKey(rows[n - 1], k) then [rows[n - 1]] else []
  }

  lemma {:induction false} BucketIndex(rows: seq<Row>, k: Key, n: nat) returns (at: seq<nat>)
    requires n <= |rows|
    ensures |at| == |Bucket(rows, k, n)|
    ensures forall j :: 0 <= j < |at| ==> at[j] < n && HasKey(rows[at[j]], k) && Bucket(rows, k, n)[j] == rows[at[j]]
    ensures forall i, j :: 0 <= i < j < |at| ==> at[i] < at[j]
    ensures forall i :: 0 <= i < n && HasKey(rows[i], k) ==> i in at
  {
    hide HasKey;
    at := [];
    if n > 0 {
      at := BucketIndex(rows, k, n - 1);
      if HasKey(rows[n - 1], k) {
        at := at + [n - 1];
      }
    }
  }

  // An earlier row has the same key.
  predicate Dropped(rows: seq<Row>, i: nat)
    requires i < |rows|
  {
    exists k: nat :: k < i && SameKey(rows[k], rows[i])
  }

  predicate SameKey(a: Row, b: Row) { Readable(a) && Readable(b) && RowKey(a).Some? && RowKey(a) == RowKey(b) }

  // Row i as it stands after the run, if it is not dropped.
  function Kept(rows: seq<Row>, i: nat): Row
    requires i < |rows|
  {
    if Readable(rows[i]) && RowKey(rows[i]).Some? then
      var bucket := Bucket(rows, RowKey(rows[i]).value, |rows|);
      if |bucket| >= 2 then rows[i].(stored := Object(Merge(bucket, |bucket|))) else rows[i]
    else rows[i]
  }

  // The table after the run, from the first n rows.
  function Result(rows: seq<Row>, n: nat): seq<Row>
    requires n <= |rows|
  {
    if n == 0 then []
    else Result(rows, n - 1) + if Dropped(rows, n - 1) then [] else [Kept(rows, n - 1)]
  }

  lemma {:induction false} Survivors(rows: seq<Row>, n: nat) returns (at: seq<nat>)
    requires n <= |rows|
    ensures |at| == |Result(rows, n)|
    ensures forall p :: 0 <= p < |at| ==> at[p] < n && !Dropped(rows, at[p]) && Result(rows, n)[p] == Kept(rows, at[p])
    ensures forall p, q :: 0 <= p < q < |at| ==> at[p] < at[q]
    ensures forall i :: 0 <= i < n && !Dropped(rows, i) ==> i in at
  {
    hide Dropped, Kept;
    at := [];
    if n > 0 {
      at := Survivors(rows, n - 1);
      if !Dropped(rows, n - 1) {
        at := at + [n - 1];
      }
    }
  }

  // Keeping a row changes neither its id nor its key.
  lemma KeptKeepsKey(rows: seq<Row>, i: nat)
    requires i < |rows| && Readable(rows[i])
    ensures Readable(Kept(rows, i)) && RowKey(Kept(rows, i)) == RowKey(rows[i]) && Kept(rows, i).id == rows[i].id
  {
    hide KeyFor, WellTyped, Merge;
    if RowKey(rows[i]).Some? {
      var k := RowKey(rows[i]).value;
      var bucket := Bucket(rows, k, |rows|);
      var at := BucketIndex(rows, k, |rows|);
      if |bucket| >= 2 {
        assert Grouped(bucket, k);
        MergeKeepsKey(bucket, k);
        KeyKind(rows[i]);
      }
    }
  }

  lemma KeyKind(r: Row)
    requires Readable(r) && RowKey(r).Some?
    ensures RowKey(r).value.kind == r.kind
  {
  }

  // ------------------------------------------------------------ what a run achieves

  // No two rows share a key, every row stays readable, ids stay unique.
  lemma KeysBecomeDistinct(rows: seq<Row>)
    requires AllReadable(rows) && UniqueIds(rows)
    ensures var r := Result(rows, |rows|);
            && AllReadable(r)
            && UniqueIds(r)
            && forall p, q :: 0 <= p < q < |r| ==> !SameKey(r[p], r[q])
  {
    var r := Result(rows, |rows|);
    var at := Survivors(rows, |rows|);
    hide Result, RowKey, Kept;
    forall p | 0 <= p < |r| ensures Readable(r[p]) && RowKey(r[p]) == RowKey(rows[at[p]]) && r[p].id == rows[at[p]].id {
      KeptKeepsKey(rows, at[p]);
    }
    forall p, q | 0 <= p < q < |r| ensures !SameKey(r[p], r[q]) {
      assert !Dropped(rows, at[q]);
      assert SameKey(r[p], r[q]) <==> SameKey(rows[at[p]], rows[at[q]]);
    }
  }

  // Rows with pairwise different keys are left as they are: a second run changes nothing.
  lemma {:induction false} DistinctIsFixpoint(rows: seq<Row>, n: nat)
    requires n <= |rows|
    requires forall p, q :: 0 <= p < q < |rows| ==> !SameKey(rows[p], rows[q])
    ensures Result(rows, n) == rows[..n]
  {
    if n > 0 {
      DistinctIsFixpoint(rows, n - 1);
      KeptAlone(rows, n - 1);
      hide Kept, Dropped, SameKey;
      assert !Dropped(rows, n - 1) by { NotDropped(rows, n - 1); }
    }
  }

  lemma NotDropped(rows: seq<Row>, i: nat)
    requires i < |rows|
    requires forall p, q :: 0 <= p < q < |rows| ==> !SameKey(rows[p], rows[q])
    ensures !Dropped(rows, i)
  {
  }

  lemma KeptAlone(rows: seq<Row>, i: nat)
    requires i < |rows|
    requires forall p, q :: 0 <= p < q < |rows| ==> !SameKey(rows[p], rows[q])
    ensures Kept(rows, i) == rows[i]
  {
    if Readable(rows[i]) && RowKey(rows[i]).Some? {
      var k := RowKey(rows[i]).value;
      if |Bucket(rows, k, |rows|)| >= 2 {
        TwoInBucket(rows, k);
      }
    }
  }

  lemma TwoInBucket(rows: seq<Row>, k: Key)
    requires |Bucket(rows, k, |rows|)| >= 2
    ensures exists p, q :: 0 <= p < q < |rows| && SameKey(rows[p], rows[q])
  {
    hide Bucket, RowKey, Readable;
    var at := BucketIndex(rows, k, |rows|);
    assert at[0] < at[1] && HasKey(rows[at[0]], k) && HasKey(rows[at[1]], k);
    assert SameKey(rows[at[0]], rows[at[1]]);
  }

  lemma SecondRunChangesNothing(rows: seq<Row>)
    requires AllReadable(rows) && UniqueIds(rows)
    ensures var r := Result(rows, |rows|); Result(r, |r|) == r
  {
    KeysBecomeDistinct(rows);
    var r := Result(rows, |rows|);
    DistinctIsFixpoint(r, |r|);
    assert r[..|r|] == r;
  }

  // Row j is the last with the key of row i that sets field f.
  ghost predicate LatestOfKey(rows: seq<Row>, i: nat, f: string, j: nat)
    requires i < |rows|
  {
    && j < |rows| && SameKey(rows[j], rows[i]) && Sets(rows[j], f)
    && (forall l :: j < l < |rows| && SameKey(rows[l], rows[i]) ==> !Sets(rows[l], f))
  }

  // The first row of each key survives under its own id and with the merge of its group, in
  // which every field of every row of the group has its latest value.
  lemma KeeperHasEverything(rows: seq<Row>, i: nat, f: string) returns (p: nat, keeper: nat)
    requires AllReadable(rows) && i < |rows| && RowKey(rows[i]).Some? && Sets(rows[i], f)
    ensures keeper <= i && SameKey(rows[keeper], rows[i]) && forall j :: 0 <= j < keeper ==> !SameKey(rows[j], rows[i])
    ensures p < |Result(rows, |rows|)|
    ensures var r := Result(rows, |rows|)[p];
            && r.id == rows[keeper].id
            && Sets(r, f)
            && exists j: nat :: LatestOfKey(rows, i, f, j) && r.stored.config[f] == rows[j].stored.config[f]
  {
    hide Result, Merge, RowKey, LatestOfKey, Kept, Bucket;
    keeper, p := FirstOfKey(rows, i);
    var k := RowKey(rows[i]).value;
    var j := MergeHasLatest(rows, i, f, k);
    KeptAsMerge(rows, keeper, k, j, f);
  }

  // The kept row carries the merge of its group, also when the group is that row alone.
  lemma KeptAsMerge(rows: seq<Row>, keeper: nat, k: Key, j: nat, f: string)
    requires keeper < |rows| && HasKey(rows[keeper], k)
    requires j < |rows| && HasKey(rows[j], k) && Sets(rows[j], f)
    requires var m := Merge(Bucket(rows, k, |rows|), |Bucket(rows, k, |rows|)|);
             f in m && m[f] == rows[j].stored.config[f]
    ensures Sets(Kept(rows, keeper), f) && Kept(rows, keeper).stored.config[f] == rows[j].stored.config[f]
    ensures Kept(rows, keeper).id == rows[keeper].id
  {
    hide Bucket, Merge, RowKey, Readable;
    var at := BucketIndex(rows, k, |rows|);
    assert keeper in at && j in at;
    assert |at| < 2 ==> keeper == j;
  }

  lemma MergeHasLatest(rows: seq<Row>, i: nat, f: string, k: Key) returns (j: nat)
    requires i < |rows| && HasKey(rows[i], k) && Sets(rows[i], f)
    ensures LatestOfKey(rows, i, f, j) && j < |rows| && HasKey(rows[j], k) && Sets(rows[j], f)
    ensures var m := Merge(Bucket(rows, k, |rows|), |Bucket(rows, k, |rows|)|);
            f in m && m[f] == rows[j].stored.config[f]
  {
    hide Bucket, Merge, RowKey, Readable;
    var bucket := Bucket(rows, k, |rows|);
    var at := BucketIndex(rows, k, |rows|);
    MergeField(bucket, |bucket|, f);
    var x: nat :| x < |at| && at[x] == i;
    assert Sets(bucket[x], f);
    var b: nat :| LastToSet(bucket, |bucket|, f, b) && Merge(bucket, |bucket|)[f] == bucket[b].stored.config[f];
    j := at[b];
    NoLaterSetter(rows, i, f, k, at, b);
  }

  lemma NoLaterSetter(rows: seq<Row>, i: nat, f: string, k: Key, at: seq<nat>, b: nat)
    requires i < |rows| && HasKey(rows[i], k)
    requires |at| == |Bucket(rows, k, |rows|)|
    requires forall j :: 0 <= j < |at| ==> at[j] < |rows| && Bucket(rows, k, |rows|)[j] == rows[at[j]]
    requires forall i, j :: 0 <= i < j < |at| ==> at[i] < at[j]
    requires forall i :: 0 <= i < |rows| && HasKey(rows[i], k) ==> i in at
    requires LastToSet(Bucket(rows, k, |rows|), |at|, f, b)
    ensures forall l :: at[b] < l < |rows| && SameKey(rows[l], rows[i]) ==> !Sets(rows[l], f)
  {
    hide Bucket, RowKey, Readable, Sets;
    forall l | at[b] < l < |rows| && SameKey(rows[l], rows[i]) ensures !Sets(rows[l], f) {
      assert HasKey(rows[l], k);
      var y :| 0 <= y < |at| && at[y] == l;
      assert y > b;
    }
  }

  // The earliest row of the key of row i, and where it stands in the result.
  lemma FirstOfKey(rows: seq<Row>, i: nat) returns (keeper: nat, p: nat)
    requires AllReadable(rows) && i < |rows| && RowKey(rows[i]).Some?
    ensures keeper <= i && SameKey(rows[keeper], rows[i]) && forall j :: 0 <= j < keeper ==> !SameKey(rows[j], rows[i])
    ensures p < |Result(rows, |rows|)| && Result(rows, |rows|)[p] == Kept(rows, keeper)
    ensures RowKey(rows[keeper]) == RowKey(rows[i])
  {
    hide RowKey, Kept;
    keeper := i;
    while exists j: nat :: j < keeper && SameKey(rows[j], rows[i])
      invariant keeper <= i && SameKey(rows[keeper], rows[i])
      decreases keeper
    {
      var j: nat :| j < keeper && SameKey(rows[j], rows[i]);
      keeper := j;
    }
    assert !Dropped(rows, keeper);
    var at := Survivors(rows, |rows|);
    p :| 0 <= p < |at| && at[p] == keeper;
  }

  // The set of keys is the same before and after.
  lemma KeysPreserved(rows: seq<Row>, k: Key)
    requires AllReadable(rows)
    ensures (exists i :: 0 <= i < |rows| && HasKey(rows[i], k))
       <==> (exists p :: 0 <= p < |Result(rows, |rows|)| && HasKey(Result(rows, |rows|)[p], k))
  {
    var r := Result(rows, |rows|);
    var at := Survivors(rows, |rows|);
    hide RowKey, Kept, Result;
    if i :| 0 <= i < |rows| && HasKey(rows[i], k) {
      var keeper, p := FirstOfKey(rows, i);
      KeptKeepsKey(rows, keeper);
      assert HasKey(r[p], k);
    }
    if p :| 0 <= p < |r| && HasKey(r[p], k) {
      KeptKeepsKey(rows, at[p]);
      assert HasKey(rows[at[p]], k);
    }
  }

  // Rows without a key stay exactly as they are.
  lemma KeylessUntouched(rows: seq<Row>, i: nat)
    requires AllReadable(rows) && i < |rows| && RowKey(rows[i]).None?
    ensures rows[i] in Result(rows, |rows|)
  {
    assert !Dropped(rows, i);
    var at := Survivors(rows, |rows|);
    var p :| 0 <= p < |at| && at[p] == i;
    assert Result(rows, |rows|)[p] == rows[i];
  }

  // ------------------------------------------------------------ the script

  datatype Outcome = Raised | Finished

  // Row i stays and takes the merge of its group.
  predicate Keeper(rows: seq<Row>, i: nat)
    requires i < |rows|
  {
    && Readable(rows[i]) && RowKey(rows[i]).Some? && !Dropped(rows, i)
    && |Bucket(rows, RowKey(rows[i]).value, |rows|)| >= 2
  }

  // The first row of a group is kept and the others are dropped.
  lemma GroupShape(rows: seq<Row>, k: Key) returns (at: seq<nat>)
    ensures |at| == |Bucket(rows, k, |rows|)|
    ensures forall j :: 0 <= j < |at| ==> at[j] < |rows| && HasKey(rows[at[j]], k)
    ensures forall j :: 0 <= j < |at| ==> Bucket(rows, k, |rows|)[j] == rows[at[j]]
    ensures forall i :: 0 <= i < |rows| && HasKey(rows[i], k) ==> i in at
    ensures forall j :: 0 <= j < |at| ==> (Dropped(rows, at[j]) <==> j > 0)
  {
    hide Bucket, RowKey, Readable;
    at := BucketIndex(rows, k, |rows|);
    forall l: nat | l < |rows| && HasKey(rows[l], k) ensures at[0] <= l {
      var y :| 0 <= y < |at| && at[y] == l;
    }
    forall j | 0 <= j < |at| ensures Dropped(rows, at[j]) <==> j > 0 {
      if j > 0 {
        assert at[0] < at[j] && SameKey(rows[at[0]], rows[at[j]]);
      }
    }
  }

  // The dict of groups holds the buckets of the first n rows, in the order their keys were met.
  ghost predicate GroupsAre(rows: seq<Row>, n: nat, groups: map<Key, seq<Row>>, keys: seq<Key>)
    requires n <= |rows|
  {
    && (forall k :: k in keys <==> k in groups)
    && (forall k: Key :: Bucket(rows, k, n) == if k in groups then groups[k] else [])
  }

  lemma GroupsStart(rows: seq<Row>)
    ensures GroupsAre(rows, 0, map[], [])
  {
  }

  // groups[k].append(r), the list being created when the key is new.
  function Appended(groups: map<Key, seq<Row>>, k: Key, r: Row): map<Key, seq<Row>> {
    groups[k := (if k in groups then groups[k] else []) + [r]]
  }

  method Group(rows: seq<Row>) returns (outcome: Outcome, groups: map<Key, seq<Row>>, keys: seq<Key>)
    ensures outcome == Raised <==> exists i :: 0 <= i < |rows| && Raises(rows[i])
    ensures outcome == Finished <==> AllReadable(rows)
    ensures outcome == Finished ==> GroupsAre(rows, |rows|, groups, keys)
  {
    hide GroupsAre, RowKey, Readable, Raises;
    groups, keys := map[], [];
    GroupsStart(rows);
    for i := 0 to |rows|
      invariant forall j :: 0 <= j < i ==> Readable(rows[j]) && !Raises(rows[j])
      invariant GroupsAre(rows, i, groups, keys)
    {
      var r := rows[i];
      ReadableIffNotRaises(r);
      if !Readable(r) {
        return Raised, groups, keys;
      }
      var key := RowKey(r);
      if key.Some? {
        var k := key.value;
        GroupsGrow(rows, i, groups, keys, k);
        if k !in groups {
          keys := keys + [k];
        }
        groups := Appended(groups, k, r);
      } else {
        GroupsSkip(rows, i, groups, keys);
      }
    }
    outcome := Finished;
  }

  lemma GroupsGrow(rows: seq<Row>, n: nat, groups: map<Key, seq<Row>>, keys: seq<Key>, k: Key)
    requires n < |rows| && GroupsAre(rows, n, groups, keys) && HasKey(rows[n], k)
    ensures GroupsAre(rows, n + 1, Appended(groups, k, rows[n]), if k in groups then keys else keys + [k])
  {
    hide RowKey, Readable;
    assert forall j: Key :: HasKey(rows[n], j) <==> j == k;
  }

  lemma GroupsSkip(rows: seq<Row>, n: nat, groups: map<Key, seq<Row>>, keys: seq<Key>)
    requires n < |rows| && GroupsAre(rows, n, groups, keys) && Readable(rows[n]) && RowKey(rows[n]).None?
    ensures GroupsAre(rows, n + 1, groups, keys)
  {
    hide RowKey, Readable;
    assert forall j: Key :: !HasKey(rows[n], j);
  }

  // Everything planned is right: each update gives a keeper its merge, each deletion is of a dropped row.
  ghost predicate PlanIsSound(rows: seq<Row>, updates: seq<(string, Config)>, gone: seq<string>) {
    && (forall u :: u in updates ==> exists i: nat :: i < |rows| && IsUpdateOf(rows, u, i))
    && (forall id :: id in gone ==> exists i: nat :: i < |rows| && Dropped(rows, i) && rows[i].id == id)
  }

  ghost predicate IsUpdateOf(rows: seq<Row>, u: (string, Config), i: nat)
    requires i < |rows|
  {
    Keeper(rows, i) && u.0 == rows[i].id && Object(u.1) == Kept(rows, i).stored
  }

  // The plan covers every row whose key is among the first n keys met.
  ghost predicate PlanCovers(rows: seq<Row>, done: set<Key>, updates: seq<(string, Config)>, gone: seq<string>) {
    forall i: nat :: i < |rows| && Readable(rows[i]) && RowKey(rows[i]).Some? && RowKey(rows[i]).value in done ==>
      && (Keeper(rows, i) ==> exists u :: u in updates && u.0 == rows[i].id)
      && (Dropped(rows, i) ==> rows[i].id in gone)
  }

  method MergeBucket(bucket: seq<Row>) returns (merged: Config)
    ensures merged == Merge(bucket, |bucket|)
  {
    merged := map[];
    for j := 0 to |bucket|
      invariant merged == Merge(bucket, j)
    {
      if bucket[j].stored.Object? {
        merged := merged + bucket[j].stored.config;
      }
    }
  }

  method DropTail(bucket: seq<Row>) returns (ids: seq<string>)
    requires bucket != []
    ensures |ids| == |bucket| - 1 && forall j :: 0 <= j < |ids| ==> ids[j] == bucket[j + 1].id
  {
    ids := [];
    for j := 1 to |bucket|
      invariant |ids| == j - 1 && forall l :: 0 <= l < |ids| ==> ids[l] == bucket[l + 1].id
    {
      ids := ids + [bucket[j].id];
    }
  }

  // What one group of at least two rows adds to the plan.
  lemma PlanOneGroup(rows: seq<Row>, k: Key, merged: Config, ids: seq<string>)
    requires var b := Bucket(rows, k, |rows|);
             && |b| >= 2 && merged == Merge(b, |b|)
             && |ids| == |b| - 1 && forall j :: 0 <= j < |ids| ==> ids[j] == b[j + 1].id
    ensures PlanIsSound(rows, [(Bucket(rows, k, |rows|)[0].id, merged)], ids)
    ensures PlanCovers(rows, {k}, [(Bucket(rows, k, |rows|)[0].id, merged)], ids)
  {
    hide Bucket, Merge, Readable, RowKey, Dropped;
    var b := Bucket(rows, k, |rows|);
    var at := GroupShape(rows, k);
    assert IsUpdateOf(rows, (b[0].id, merged), at[0]);
    forall id | id in ids ensures exists i: nat :: i < |rows| && Dropped(rows, i) && rows[i].id == id {
      var j :| 0 <= j < |ids| && ids[j] == id;
      assert Dropped(rows, at[j + 1]);
    }
    forall i: nat | i < |rows| && HasKey(rows[i], k)
      ensures i == at[0] || rows[i].id in ids
    {
      var j :| 0 <= j < |at| && at[j] == i;
      if j > 0 {
        assert ids[j - 1] == rows[i].id;
      }
    }
  }

  lemma PlanSkipsGroup(rows: seq<Row>, k: Key)
    requires |Bucket(rows, k, |rows|)| < 2
    ensures PlanCovers(rows, {k}, [], [])
  {
    hide Bucket, Readable, RowKey, Dropped;
    var at := GroupShape(rows, k);
    forall i: nat | i < |rows| && HasKey(rows[i], k) ensures !Dropped(rows, i) && !Keeper(rows, i) {
      var j :| 0 <= j < |at| && at[j] == i;
    }
  }

  lemma PlansJoin(rows: seq<Row>, d1: set<Key>, u1: seq<(string, Config)>, g1: seq<string>,
                  d2: set<Key>, u2: seq<(string, Config)>, g2: seq<string>)
    requires PlanIsSound(rows, u1, g1) && PlanCovers(rows, d1, u1, g1)
    requires PlanIsSound(rows, u2, g2) && PlanCovers(rows, d2, u2, g2)
    ensures PlanIsSound(rows, u1 + u2, g1 + g2) && PlanCovers(rows, d1 + d2, u1 + u2, g1 + g2)
  {
    hide Keeper, Dropped, IsUpdateOf, Readable, RowKey;
  }

  method Plan(rows: seq<Row>, groups: map<Key, seq<Row>>, keys: seq<Key>)
    returns (updates: seq<(string, Config)>, gone: seq<string>)
    requires GroupsAre(rows, |rows|, groups, keys)
    ensures PlanIsSound(rows, updates, gone)
    ensures PlanCovers(rows, Elems(keys), updates, gone)
  {
    hide PlanIsSound, PlanCovers, Bucket, Merge, GroupsAre;
    updates, gone := [], [];
    ghost var done: set<Key> := {};
    NothingPlanned(rows);
    for g := 0 to |keys|
      invariant forall k :: k in done <==> k in keys[..g]
      invariant PlanIsSound(rows, updates, gone) && PlanCovers(rows, done, updates, gone)
    {
      var k := keys[g];
      GroupIs(rows, groups, keys, k);
      var bucket := groups[k];
      if |bucket| >= 2 {
        var merged := MergeBucket(bucket);
        var ids := DropTail(bucket);
        PlanOneGroup(rows, k, merged, ids);
        PlansJoin(rows, done, updates, gone, {k}, [(bucket[0].id, merged)], ids);
        updates := updates + [(bucket[0].id, merged)];
        gone := gone + ids;
      } else {
        PlanSkipsGroup(rows, k);
        NothingPlanned(rows);
        PlansJoin(rows, done, updates, gone, {k}, [], []);
        assert updates == updates + [] && gone == gone + [];
      }
      done := done + {k};
    }
    assert done == Elems(keys);
  }

  lemma GroupIs(rows: seq<Row>, groups: map<Key, seq<Row>>, keys: seq<Key>, k: Key)
    requires GroupsAre(rows, |rows|, groups, keys) && k in keys
    ensures k in groups && groups[k] == Bucket(rows, k, |rows|)
  {
  }

  lemma NothingPlanned(rows: seq<Row>)
    ensures PlanIsSound(rows, [], []) && PlanCovers(rows, {}, [], [])
  {
  }

  // ------------------------------------------------------------ writing the plan

  // UPDATE backends SET config = ? WHERE id = ?
  function SetConfig(rows: seq<Row>, id: string, cfg: Config): (r: seq<Row>)
    ensures |r| == |rows|
  {
    seq(|rows|, i requires 0 <= i < |rows| => if rows[i].id == id then rows[i].(stored := Object(cfg)) else rows[i])
  }

  // DELETE FROM backends WHERE id IN gone, over the first n rows.
  function Without(rows: seq<Row>, gone: set<string>, n: nat): seq<Row>
    requires n <= |rows|
  {
    if n == 0 then []
    else Without(rows, gone, n - 1) + if rows[n - 1].id in gone then [] else [rows[n - 1]]
  }

  lemma {:induction false} WithoutAppend(a: seq<Row>, x: Row, gone: set<string>, n: nat)
    requires n <= |a|
    ensures Without(a + [x], gone, n) == Without(a, gone, n)
  {
    if n > 0 {
      WithoutAppend(a, x, gone, n - 1);
    }
  }

  lemma WithoutSnoc(a: seq<Row>, x: Row, gone: set<string>)
    ensures Without(a + [x], gone, |a| + 1) == Without(a, gone, |a|) + if x.id in gone then [] else [x]
  {
    WithoutAppend(a, x, gone, |a|);
  }

  // Deleting twice deletes both sets.
  lemma {:induction false} WithoutTwice(rows: seq<Row>, a: set<string>, b: set<string>, n: nat)
    requires n <= |rows|
    ensures Without(Without(rows, a, n), b, |Without(rows, a, n)|) == Without(rows, a + b, n)
  {
    if n > 0 {
      WithoutTwice(rows, a, b, n - 1);
      var w := Without(rows, a, n - 1);
      if rows[n - 1].id in a {
        assert Without(rows, a, n) == w;
      } else {
        assert Without(rows, a, n) == w + [rows[n - 1]];
        WithoutSnoc(w, rows[n - 1], b);
      }
    }
  }

  lemma {:induction false} WithoutNothing(rows: seq<Row>, n: nat)
    requires n <= |rows|
    ensures Without(rows, {}, n) == rows[..n]
  {
    if n > 0 {
      WithoutNothing(rows, n - 1);
    }
  }

  // Row by row, what the first n updates leave: the rows with an updated id carry its configuration.
  ghost predicate Updated(was: seq<Row>, now: seq<Row>, updates: seq<(string, Config)>, n: nat)
    requires n <= |updates|
  {
    && |now| == |was|
    && (forall i :: 0 <= i < |was| ==>
          now[i] == was[i] || exists v :: 0 <= v < n && IsWrittenBy(was[i], now[i], updates[v]))
    && (forall i, v :: 0 <= i < |was| && 0 <= v < n && was[i].id == updates[v].0 ==>
          exists w :: 0 <= w < n && IsWrittenBy(was[i], now[i], updates[w]))
  }

  predicate IsWrittenBy(was: Row, now: Row, u: (string, Config)) {
    was.id == u.0 && now == was.(stored := Object(u.1))
  }

  lemma UpdateStep(was: seq<Row>, now: seq<Row>, updates: seq<(string, Config)>, n: nat)
    requires n < |updates| && Updated(was, now, updates, n)
    ensures Updated(was, SetConfig(now, updates[n].0, updates[n].1), updates, n + 1)
  {
    var next := SetConfig(now, updates[n].0, updates[n].1);
    forall i | 0 <= i < |was|
      ensures if was[i].id == updates[n].0 then IsWrittenBy(was[i], next[i], updates[n]) else next[i] == now[i]
    {
      assert now[i] == was[i] || now[i].(stored := was[i].stored) == was[i];
    }
  }

  // Rows that the plan touches end as the specification says.
  lemma UpdatedIsKept(was: seq<Row>, now: seq<Row>, updates: seq<(string, Config)>, gone: seq<string>, i: nat)
    requires UniqueIds(was) && AllReadable(was) && i < |was|
    requires PlanIsSound(was, updates, gone) && PlanCovers(was, AllKeys(was), updates, gone)
    requires Updated(was, now, updates, |updates|)
    ensures now[i].id == was[i].id
    ensures !Dropped(was, i) ==> now[i] == Kept(was, i)
    ensures was[i].id in gone <==> Dropped(was, i)
  {
    hide Bucket, Merge, RowKey, Dropped, Readable;
    if RowKey(was[i]).Some? {
      assert RowKey(was[i]).value in AllKeys(was);
    } else {
      KeylessNotDropped(was, i);
    }
    if v :| 0 <= v < |updates| && IsWrittenBy(was[i], now[i], updates[v]) {
      assert updates[v] in updates;
      var j: nat :| j < |was| && IsUpdateOf(was, updates[v], j);
      assert j == i;
    } else {
      assert now[i] == was[i] && !Keeper(was, i);
    }
  }

  lemma KeylessNotDropped(rows: seq<Row>, i: nat)
    requires i < |rows| && Readable(rows[i]) && RowKey(rows[i]).None?
    ensures !Dropped(rows, i)
  {
  }

  function AllKeys(rows: seq<Row>): set<Key>
    requires AllReadable(rows)
  {
    set i | 0 <= i < |rows| && RowKey(rows[i]).Some? :: RowKey(rows[i]).value
  }

  lemma {:induction false} WithoutIsResult(was: seq<Row>, now: seq<Row>, gone: set<string>, n: nat)
    requires n <= |was| && |was| == |now|
    requires forall i :: 0 <= i < n ==> now[i].id == was[i].id
    requires forall i: nat :: i < n ==> (was[i].id in gone <==> Dropped(was, i))
    requires forall i: nat :: i < n ==> (!Dropped(was, i) ==> now[i] == Kept(was, i))
    ensures Without(now, gone, n) == Result(was, n)
  {
    hide Kept, Dropped;
    if n > 0 {
      WithoutIsResult(was, now, gone, n - 1);
    }
  }

  lemma NoUpdates(rows: seq<Row>, updates: seq<(string, Config)>)
    ensures Updated(rows, rows, updates, 0)
  {
  }

  lemma WrittenIsResult(was: seq<Row>, now: seq<Row>, updates: seq<(string, Config)>, gone: seq<string>)
    requires UniqueIds(was) && AllReadable(was)
    requires PlanIsSound(was, updates, gone) && PlanCovers(was, AllKeys(was), updates, gone)
    requires Updated(was, now, updates, |updates|)
    ensures Without(now, Elems(gone), |now|) == Result(was, |was|)
  {
    assert |now| == |was|;
    hide Updated, PlanCovers, PlanIsSound, Dropped, Kept, Without, Result;
    forall i: nat | i < |was|
      ensures now[i].id == was[i].id
      ensures !Dropped(was, i) ==> now[i] == Kept(was, i)
      ensures was[i].id in Elems(gone) <==> Dropped(was, i)
    {
      UpdatedIsKept(was, now, updates, gone, i);
    }
    WithoutIsResult(was, now, Elems(gone), |was|);
  }

  // Every key was met, so the plan for the keys met covers all rows.
  lemma PlanCoversAll(rows: seq<Row>, groups: map<Key, seq<Row>>, keys: seq<Key>,
                      updates: seq<(string, Config)>, gone: seq<string>)
    requires AllReadable(rows) && GroupsAre(rows, |rows|, groups, keys) && PlanCovers(rows, Elems(keys), updates, gone)
    ensures PlanCovers(rows, AllKeys(rows), updates, gone)
  {
    hide RowKey, Readable, Dropped, Keeper, Bucket;
    forall k | k in AllKeys(rows) ensures k in Elems(keys) {
      var i :| 0 <= i < |rows| && RowKey(rows[i]) == Some(k);
      var at := BucketIndex(rows, k, |rows|);
      assert HasKey(rows[i], k);
      assert Bucket(rows, k, |rows|) != [];
    }
  }

  lemma NothingDropped(rows: seq<Row>, updates: seq<(string, Config)>)
    requires AllReadable(rows) && PlanCovers(rows, AllKeys(rows), updates, [])
    ensures Result(rows, |rows|) == rows
  {
    hide RowKey, Readable;
    forall q: nat | q < |rows| ensures !Dropped(rows, q) {
      if RowKey(rows[q]).Some? {
        assert RowKey(rows[q]).value in AllKeys(rows);
      }
    }
    forall p, q | 0 <= p < q < |rows| ensures !SameKey(rows[p], rows[q]) {
      assert !Dropped(rows, q);
    }
    DistinctIsFixpoint(rows, |rows|);
  }

  class Backends {
    // Table backends, oldest row first.
    var rows: seq<Row>

    constructor (initial: seq<Row>)
      ensures rows == initial
    {
      rows := initial;
    }

    // The UPDATE loop.
    method WriteUpdates(updates: seq<(string, Config)>)
      modifies this
      ensures Updated(old(rows), rows, updates, |updates|)
    {
      hide Updated;
      ghost var was := rows;
      NoUpdates(rows, updates);
      for v := 0 to |updates|
        invariant Updated(was, rows, updates, v)
      {
        UpdateStep(was, rows, updates, v);
        rows := SetConfig(rows, updates[v].0, updates[v].1);
      }
    }

    // The DELETE loop of executemany.
    method DeleteAll(gone: seq<string>)
      modifies this
      ensures rows == Without(old(rows), Elems(gone), |old(rows)|)
    {
      hide Without;
      ghost var was := rows;
      ghost var deleted: set<string> := {};
      WithoutNothing(was, |was|);
      assert was[..|was|] == was;
      for d := 0 to |gone|
        invariant forall id :: id in deleted <==> id in gone[..d]
        invariant rows == Without(was, deleted, |was|)
      {
        WithoutTwice(was, deleted, {gone[d]}, |was|);
        rows := Without(rows, {gone[d]}, |rows|);
        deleted := deleted + {gone[d]};
      }
      assert deleted == Elems(gone);
    }

    method Write(updates: seq<(string, Config)>, gone: seq<string>)
      modifies this
      requires UniqueIds(rows) && AllReadable(rows)
      requires PlanIsSound(rows, updates, gone) && PlanCovers(rows, AllKeys(rows), updates, gone)
      ensures rows == Result(old(rows), |old(rows)|)
    {
      hide *;
      ghost var was := rows;
      WriteUpdates(updates);
      WrittenIsResult(was, rows, updates, gone);
      DeleteAll(gone);
    }

    // main: group, plan, and unless this is a dry run write the plan in one transaction.
    method Deduplicate(dryRun: bool) returns (outcome: Outcome)
      requires UniqueIds(rows)
      modifies this
      ensures outcome == Raised <==> exists i :: 0 <= i < |old(rows)| && Raises(old(rows)[i])
      ensures outcome == Finished <==> AllReadable(old(rows))
      ensures (outcome == Raised || dryRun) ==> rows == old(rows)
      ensures (outcome == Finished && !dryRun) ==> rows == Result(old(rows), |old(rows)|)
    {
      var groups, keys;
      outcome, groups, keys := Group(rows);
      if outcome == Raised {
        return;
      }
      var updates, gone := Plan(rows, groups, keys);
      PlanCoversAll(rows, groups, keys, updates, gone);
      if gone == [] {
        NothingDropped(rows, updates);
        return;
      }
      if dryRun {
        return;
      }
      Write(updates, gone);
    }
  }
}
