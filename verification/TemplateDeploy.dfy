// Deploying a bot template under a trigger name that is not taken (backend/app/db/bot_templates.py).
module TemplateDeploy {
  import opened Prelude
  import Text

  // A key of the configuration: missing, null, or a string.
  datatype Field = Missing | Null | Str(text: string)

  datatype Config = NotJson | NotObject | Object(name: Field, prompt: Field, backend: Field, source: Field,
                                                model: Field, schedule: Field)

  datatype Template = Template(name: string, config: Config)

  datatype Trigger = Trigger(id: string, name: string, prompt: string, backend: string, source: string,
                             model: Option<string>, schedule: Option<string>)

  datatype Outcome = Raised | Failed | Deployed(id: string)

  const BACKENDS := {"claude", "opencode", "gemini", "codex"}
  const SOURCES := {"webhook", "github", "manual", "scheduled"}
  const SCHEDULES := {"daily", "weekly", "monthly"}

  // ------------------------------------------------------------ names

  function Digit(d: nat): char
    requires d < 10
  {
    (48 + d) as char
  }

  // str(n)
  function Decimal(n: nat): (r: string)
    ensures r != "" && forall c :: c in r ==> '0' <= c <= '9'
  {
    if n < 10 then [Digit(n)] else Decimal(n / 10) + [Digit(n % 10)]
  }

  function Value(s: string): int {
    if s == "" then 0 else Value(s[..|s| - 1]) * 10 + (s[|s| - 1] as int - 48)
  }

  lemma {:induction false} DecimalValue(n: nat)
    ensures Value(Decimal(n)) == n && (n > 0 ==> Decimal(n)[0] != '0')
  {
    if n < 10 {
      assert Decimal(n)[..0] == "";
    } else {
      DecimalValue(n / 10);
      assert Decimal(n)[..|Decimal(n)| - 1] == Decimal(n / 10);
    }
  }

  function Suffix(c: nat): string { " (" + Decimal(c) + ")" }

  // The names tried in turn: the base name, then "base (2)", "base (3)", ...
  function Candidate(base: string, c: nat): string { if c <= 1 then base else base + Suffix(c) }

  // A trigger has this name up to the case of ASCII letters, as LOWER() compares.
  predicate Taken(triggers: seq<Trigger>, name: string) {
    exists i :: 0 <= i < |triggers| && Text.Lower(triggers[i].name) == Text.Lower(name)
  }

  ghost predicate NamesDiffer(triggers: seq<Trigger>) {
    forall i, j :: 0 <= i < j < |triggers| ==> !Text.SameButCase(triggers[i].name, triggers[j].name)
  }

  ghost predicate HasName(triggers: seq<Trigger>, name: string) {
    exists i :: 0 <= i < |triggers| && Text.SameButCase(triggers[i].name, name)
  }

  lemma TakenMeans(triggers: seq<Trigger>, name: string)
    ensures Taken(triggers, name) <==> HasName(triggers, name)
  {
    hide Text.Lower, Text.SameButCase;
    forall i | 0 <= i < |triggers|
      ensures Text.Lower(triggers[i].name) == Text.Lower(name) <==> Text.SameButCase(triggers[i].name, name)
    {
      Text.LowerMeans(triggers[i].name, name);
    }
  }

  // The number at the end of a lower-cased candidate can be read off.
  function NumberOf(base: string, lowered: string): int {
    if |lowered| < |base| + 3 then 1 else Value(lowered[|base| + 2..|lowered| - 1])
  }

  lemma CandidateNumber(base: string, c: nat)
    requires c >= 1
    ensures NumberOf(base, Text.Lower(Candidate(base, c))) == c
  {
    hide Decimal, Value;
    if c > 1 {
      var name, d := Candidate(base, c), Decimal(c);
      var lowered := Text.Lower(name);
      assert |name| == |base| + |d| + 3;
      forall i | 0 <= i < |d| ensures lowered[|base| + 2 + i] == d[i] {
        assert name[|base| + 2 + i] == d[i];
        assert d[i] in d;
      }
      assert lowered[|base| + 2..|lowered| - 1] == d;
      DecimalValue(c);
    }
  }

  function LoweredNames(triggers: seq<Trigger>): seq<string> {
    seq(|triggers|, i requires 0 <= i < |triggers| => Text.Lower(triggers[i].name))
  }

  // Different candidates take different triggers, so at most |triggers| of them are taken.
  lemma TakenAreFew(triggers: seq<Trigger>, base: string, k: nat)
    requires forall c :: 1 <= c <= k ==> Taken(triggers, Candidate(base, c))
    ensures k <= |triggers|
  {
    hide Candidate, Text.Lower, NumberOf;
    var tried := seq(k, i requires 0 <= i < k => Text.Lower(Candidate(base, i + 1)));
    forall i, j | 0 <= i < j < k ensures tried[i] != tried[j] {
      CandidateNumber(base, i + 1);
      CandidateNumber(base, j + 1);
    }
    DistinctCardinality(tried);
    var names := LoweredNames(triggers);
    forall x | x in tried ensures x in names {
      var i :| 0 <= i < k && tried[i] == x;
      assert Taken(triggers, Candidate(base, i + 1));
      var j :| 0 <= j < |triggers| && Text.Lower(triggers[j].name) == x;
      assert names[j] == x;
    }
    SubsetCardinality(Elems(tried), Elems(names));
    CardinalityDistinct(names);
  }

  // The first candidate that no trigger has.
  ghost predicate IsFirstFree(triggers: seq<Trigger>, base: string, c: nat) {
    c >= 1 && !Taken(triggers, Candidate(base, c)) && forall d :: 1 <= d < c ==> Taken(triggers, Candidate(base, d))
  }

  // The name is the base and a number in brackets, and every smaller number from 2 on is in use.
  ghost predicate IsNumbered(triggers: seq<Trigger>, base: string, name: string, c: nat) {
    && name == base + " (" + Decimal(c) + ")"
    && HasName(triggers, base)
    && (forall d: nat :: 2 <= d < c ==> HasName(triggers, base + " (" + Decimal(d) + ")"))
  }

  lemma FirstFreeMeans(triggers: seq<Trigger>, base: string, c: nat)
    requires IsFirstFree(triggers, base, c)
    ensures var name := Candidate(base, c);
            && !HasName(triggers, name)
            && (c == 1 <==> name == base)
            && (c == 1 <==> !HasName(triggers, base))
            && (c > 1 ==> IsNumbered(triggers, base, name, c))
  {
    hide Taken, HasName, Decimal;
    forall name ensures Taken(triggers, name) <==> HasName(triggers, name) {
      TakenMeans(triggers, name);
    }
    if c > 1 {
      assert Taken(triggers, Candidate(base, 1));
      forall d: nat | 2 <= d < c ensures HasName(triggers, base + " (" + Decimal(d) + ")") {
        assert Taken(triggers, Candidate(base, d));
        assert Candidate(base, d) == base + " (" + Decimal(d) + ")";
      }
      assert Candidate(base, c) == base + " (" + Decimal(c) + ")";
    }
  }

  method FreshName(triggers: seq<Trigger>, base: string) returns (name: string)
    ensures exists c: nat :: c <= |triggers| + 1 && IsFirstFree(triggers, base, c) && name == Candidate(base, c)
    ensures !HasName(triggers, name) && (name == base <==> !HasName(triggers, base))
    ensures name != base ==> exists c: nat :: 2 <= c <= |triggers| + 1 && IsNumbered(triggers, base, name, c)
  {
    hide Taken, Decimal, HasName, IsNumbered;
    name := base;
    var counter := 2;
    TakenAreFew(triggers, base, counter - 2);
    while Taken(triggers, name)
      invariant counter >= 2 && name == Candidate(base, counter - 1)
      invariant forall d :: 1 <= d < counter - 1 ==> Taken(triggers, Candidate(base, d))
      invariant counter - 2 <= |triggers|
      decreases |triggers| + 2 - counter
    {
      TakenAreFew(triggers, base, counter - 1);
      name := base + " (" + Decimal(counter) + ")";
      assert name == Candidate(base, counter);
      counter := counter + 1;
    }
    assert IsFirstFree(triggers, base, counter - 1);
    FirstFreeMeans(triggers, base, counter - 1);
  }

  // Deploying again while a trigger of that name exists moves on to a later candidate.
  lemma NextDeployMovesOn(triggers: seq<Trigger>, t: Trigger, base: string, c: nat, d: nat)
    requires IsFirstFree(triggers, base, c) && t.name == Candidate(base, c)
    requires IsFirstFree(triggers + [t], base, d)
    ensures d > c
  {
    var after := triggers + [t];
    assert after[|triggers|] == t;
    forall e | 1 <= e <= c ensures Taken(after, Candidate(base, e)) {
      if e < c {
        assert Taken(triggers, Candidate(base, e));
        var i :| 0 <= i < |triggers| && Text.Lower(triggers[i].name) == Text.Lower(Candidate(base, e));
        assert after[i] == triggers[i];
      }
    }
  }

  // ------------------------------------------------------------ deployment

  function OrElse(f: Field, default: string): Field { if f.Missing? then Str(default) else f }

  // An invalid value, null included, falls back to the default.
  function Checked(f: Field, allowed: set<string>, default: string): string {
    if f.Str? && f.text in allowed then f.text else default
  }

  function Given(f: Field): Option<string> { if f.Str? then Some(f.text) else None }

  // A schedule type that is given and not valid is dropped.
  function CheckedSchedule(f: Field): Option<string> {
    if f.Str? && (f.text == "" || f.text in SCHEDULES) then Some(f.text) else None
  }

  // The row that create_trigger inserts.
  function NewTrigger(id: string, name: string, prompt: string, config: Config): Trigger
    requires config.Object?
  {
    Trigger(id, name, prompt, Checked(config.backend, BACKENDS, "claude"), Checked(config.source, SOURCES, "webhook"),
            Given(config.model), CheckedSchedule(config.schedule))
  }

  lemma FreshDiffers(triggers: seq<Trigger>, t: Trigger)
    requires NamesDiffer(triggers) && !HasName(triggers, t.name)
    ensures NamesDiffer(triggers + [t])
  {
    hide Text.SameButCase;
  }

  class Database {
    var templates: map<string, Template>
    var triggers: seq<Trigger>

    constructor (library: map<string, Template>)
      ensures templates == library && triggers == []
    {
      templates, triggers := library, [];
    }

    // newId is the id that the trigger table does not have yet.
    method DeployTemplate(template: string, newId: string) returns (outcome: Outcome)
      requires forall i :: 0 <= i < |triggers| ==> triggers[i].id != newId
      modifies `triggers
      ensures outcome == Raised <==> template in templates && templates[template].config.NotObject?
      ensures outcome == Deployed(newId) <==>
                && template in templates && templates[template].config.Object?
                && !templates[template].config.name.Null? && !templates[template].config.prompt.Null?
      ensures outcome.Deployed? ==> outcome.id == newId
      ensures !outcome.Deployed? ==> triggers == old(triggers)
      ensures outcome.Deployed? ==>
                var config := templates[template].config;
                var base := OrElse(config.name, templates[template].name).text;
                exists c: nat :: c <= |old(triggers)| + 1 && IsFirstFree(old(triggers), base, c) &&
                  triggers == old(triggers) +
                    [NewTrigger(newId, Candidate(base, c), OrElse(config.prompt, "").text, config)]
      ensures outcome.Deployed? ==>
                var config := templates[template].config;
                var base := if config.name.Str? then config.name.text else templates[template].name;
                && |triggers| == |old(triggers)| + 1 && triggers[..|old(triggers)|] == old(triggers)
                && var t := triggers[|old(triggers)|];
                && t.id == newId
                && !HasName(old(triggers), t.name) && (t.name == base <==> !HasName(old(triggers), base))
                && (t.name != base ==>
                      exists c: nat :: 2 <= c <= |old(triggers)| + 1 && IsNumbered(old(triggers), base, t.name, c))
                && t.prompt == (if config.prompt.Str? then config.prompt.text else "")
                && t.backend == (if config.backend in {Str("claude"), Str("opencode"), Str("gemini"), Str("codex")}
                                 then config.backend.text else "claude")
                && t.source == (if config.source in {Str("webhook"), Str("github"), Str("manual"), Str("scheduled")}
                                then config.source.text else "webhook")
                && t.model == (if config.model.Str? then Some(config.model.text) else None)
                && t.schedule == (if config.schedule in {Str(""), Str("daily"), Str("weekly"), Str("monthly")}
                                  then Some(config.schedule.text) else None)
      ensures NamesDiffer(old(triggers)) ==> NamesDiffer(triggers)
    {
      hide Candidate, HasName, IsNumbered, Taken, NamesDiffer;
      if template !in templates {
        return Failed;
      }
      var config := templates[template].config;
      if config.NotJson? {
        return Failed;
      }
      if config.NotObject? {
        return Raised;
      }
      var base := OrElse(config.name, templates[template].name);
      if base.Null? {
        // No name equals NULL, so nothing is taken, and the insert fails.
        return Failed;
      }
      var name := FreshName(triggers, base.text);
      var prompt := OrElse(config.prompt, "");
      if prompt.Null? {
        return Failed;
      }
      if NamesDiffer(triggers) {
        FreshDiffers(triggers, NewTrigger(newId, name, prompt.text, config));
      }
      triggers := triggers + [NewTrigger(newId, name, prompt.text, config)];
      outcome := Deployed(newId);
    }
  }
}
