// The reviewers column of PR ownership rules: printed with commas, parsed back (backend/app/db/pr_assignment.py).
module OwnershipRules {
  import opened Prelude
  import opened Text

  const COMMA := ','

  // [p.strip() for p in parts if p.strip()]
  function Clean(parts: seq<string>): seq<string> {
    if parts == [] then []
    else (if Strip(parts[0]) == "" then [] else [Strip(parts[0])]) + Clean(parts[1..])
  }

  function Print(reviewers: seq<string>): string { Join(Clean(reviewers), COMMA) }

  function Parse(stored: string): seq<string> { Clean(Split(stored, COMMA)) }

  // Each reviewer split at its commas, trimmed, blanks dropped; all of them in order.
  function Flattened(reviewers: seq<string>): seq<string> {
    if reviewers == [] then [] else Parse(reviewers[0]) + Flattened(reviewers[1..])
  }

  // ------------------------------------------------------------ cleaning

  lemma {:induction false} CleanConcat(a: seq<string>, b: seq<string>)
    ensures Clean(a + b) == Clean(a) + Clean(b)
  {
    if a == [] {
      assert a + b == b;
    } else {
      assert (a + b)[1..] == a[1..] + b;
      CleanConcat(a[1..], b);
    }
  }

  lemma {:induction false} CleanIsClean(parts: seq<string>)
    ensures forall p :: p in Clean(parts) ==> p != "" && Stripped(p)
    ensures forall p :: p in Clean(parts) ==> exists q :: q in parts && p == Strip(q)
    ensures forall q :: q in parts && Strip(q) != "" ==> Strip(q) in Clean(parts)
  {
    if parts != [] {
      CleanIsClean(parts[1..]);
      StripIsStripped(parts[0]);
    }
  }

  lemma {:induction false} CleanFixesClean(parts: seq<string>)
    requires forall p :: p in parts ==> p != "" && Stripped(p)
    ensures Clean(parts) == parts
  {
    if parts != [] {
      assert parts[0] in parts;
      StripFixesStripped(parts[0]);
      assert forall p :: p in parts[1..] ==> p in parts;
      CleanFixesClean(parts[1..]);
    }
  }

  // ------------------------------------------------------------ trimming before or after splitting

  lemma StripFront(c: char, s: string)
    requires IsSpace(c)
    ensures Strip([c] + s) == Strip(s)
  {
    assert ([c] + s)[1..] == s;
  }

  // One more character that is not the separator ends up in the last piece.
  lemma {:induction false} SplitSnoc(s: string, c: char)
    requires c != COMMA
    ensures var p := Split(s, COMMA); var last := |p| - 1;
            Split(s + [c], COMMA) == p[..last] + [p[last] + [c]]
  {
    if s == "" {
      SplitWithoutSeparator([c], COMMA);
      assert s + [c] == [c];
    } else {
      SplitSnoc(s[1..], c);
      assert (s + [c])[1..] == s[1..] + [c];
      var p := Split(s[1..], COMMA);
      PrependSnoc(s[0], p, c);
    }
  }

  lemma PrependSnoc(head: char, p: seq<string>, c: char)
    requires p != []
    ensures var last := |p| - 1;
            var q := Prepend(head, p, COMMA);
            Prepend(head, p[..last] + [p[last] + [c]], COMMA) == q[..|q| - 1] + [q[|q| - 1] + [c]]
  {
    var last := |p| - 1;
    var q := Prepend(head, p, COMMA);
    var r := Prepend(head, p[..last] + [p[last] + [c]], COMMA);
    if head != COMMA && last == 0 {
      assert [head] + (p[0] + [c]) == ([head] + p[0]) + [c];
    }
    assert |r| == |q|;
    assert forall i :: 0 <= i < |q| - 1 ==> r[i] == q[i];
    assert r[|q| - 1] == q[|q| - 1] + [c];
  }

  lemma {:induction false} ParseStripLeft(s: string)
    ensures Parse(StripLeft(s)) == Parse(s)
  {
    if s != "" && IsSpace(s[0]) {
      ParseStripLeft(s[1..]);
      var p := Split(s[1..], COMMA);
      assert Split(s, COMMA) == [[s[0]] + p[0]] + p[1..];
      StripFront(s[0], p[0]);
      hide Strip;
      assert Clean([[s[0]] + p[0]] + p[1..]) == Clean(p);
    }
  }

  lemma {:induction false} ParseStripRight(s: string)
    ensures Parse(StripRight(s)) == Parse(s)
  {
    if s != "" && IsSpace(s[|s| - 1]) {
      var t, c := s[..|s| - 1], s[|s| - 1];
      ParseStripRight(t);
      assert s == t + [c];
      SplitSnoc(t, c);
      ParseSnoc(Split(t, COMMA), c);
    }
  }

  lemma ParseSnoc(p: seq<string>, c: char)
    requires p != [] && IsSpace(c)
    ensures var last := |p| - 1; Clean(p[..last] + [p[last] + [c]]) == Clean(p)
  {
    hide Clean, Strip;
    var last := |p| - 1;
    CleanConcat(p[..last], [p[last] + [c]]);
    CleanConcat(p[..last], [p[last]]);
    assert p[..last] + [p[last]] == p;
    StripBack(p[last], c);
    CleanOne(p[last] + [c]);
    CleanOne(p[last]);
  }

  lemma CleanOne(p: string)
    ensures Clean([p]) == if Strip(p) == "" then [] else [Strip(p)]
  {
    assert Clean([p][1..]) == [];
  }

  // Trimming a string does not change what it parses to.
  lemma ParseStrip(s: string)
    ensures Parse(Strip(s)) == Parse(s)
  {
    hide Parse;
    ParseStripLeft(s);
    ParseStripRight(StripLeft(s));
  }

  lemma ParseBlank()
    ensures Parse("") == []
  {
    assert Clean([""]) == [];
  }

  // Joining and parsing again parses each part.
  lemma {:induction false} ParseJoin(parts: seq<string>)
    ensures Parse(Join(parts, COMMA)) == Flattened(parts)
  {
    if parts == [] {
      ParseBlank();
    } else if |parts| == 1 {
      assert Flattened(parts[1..]) == [];
    } else {
      ParseJoin(parts[1..]);
      SplitConcat(parts[0], Join(parts[1..], COMMA), COMMA);
      CleanConcat(Split(parts[0], COMMA), Split(Join(parts[1..], COMMA), COMMA));
    }
  }

  lemma {:induction false} FlattenedClean(reviewers: seq<string>)
    ensures Flattened(Clean(reviewers)) == Flattened(reviewers)
  {
    hide Parse, Strip;
    if reviewers != [] {
      FlattenedClean(reviewers[1..]);
      ParseStrip(reviewers[0]);
      if Strip(reviewers[0]) == "" {
        ParseBlank();
        assert Clean(reviewers) == Clean(reviewers[1..]);
      } else {
        assert Clean(reviewers)[1..] == Clean(reviewers[1..]);
      }
    }
  }

  // ------------------------------------------------------------ what is read is what was stored

  // For arbitrary strings, commas and blanks included.
  lemma RoundTrip(reviewers: seq<string>)
    ensures Parse(Print(reviewers)) == Flattened(reviewers)
  {
    ParseJoin(Clean(reviewers));
    FlattenedClean(reviewers);
  }

  lemma {:induction false} FlattenedWithoutCommas(reviewers: seq<string>)
    requires forall r :: r in reviewers ==> COMMA !in r
    ensures Flattened(reviewers) == Clean(reviewers)
  {
    if reviewers != [] {
      assert reviewers[0] in reviewers;
      SplitWithoutSeparator(reviewers[0], COMMA);
      assert Clean([reviewers[0]]) + Clean(reviewers[1..]) == Clean(reviewers);
      FlattenedWithoutCommas(reviewers[1..]);
    }
  }

  lemma ParsedHasNoComma(s: string)
    ensures forall p :: p in Parse(s) ==> COMMA !in p
  {
    PiecesHaveNoSeparator(s, COMMA);
    CleanIsClean(Split(s, COMMA));
    hide Strip;
    forall p | p in Parse(s) ensures COMMA !in p {
      var q :| q in Split(s, COMMA) && p == Strip(q);
      StripKeepsOut(q, COMMA);
    }
  }

  lemma {:induction false} StripLeftKeepsIn(s: string, c: char)
    requires c in s && !IsSpace(c)
    ensures c in StripLeft(s)
  {
    if IsSpace(s[0]) {
      StripLeftKeepsIn(s[1..], c);
    }
  }

  lemma {:induction false} StripRightKeepsIn(s: string, c: char)
    requires c in s && !IsSpace(c)
    ensures c in StripRight(s)
  {
    if IsSpace(s[|s| - 1]) {
      StripRightKeepsIn(s[..|s| - 1], c);
    }
  }

  // The list read back is the trimmed list without blanks exactly when no reviewer contains a comma.
  lemma RoundTripExactly(reviewers: seq<string>)
    ensures Parse(Print(reviewers)) == Clean(reviewers) <==> forall r :: r in reviewers ==> COMMA !in r
  {
    RoundTrip(reviewers);
    if forall r :: r in reviewers ==> COMMA !in r {
      FlattenedWithoutCommas(reviewers);
    } else {
      var r :| r in reviewers && COMMA in r;
      StripLeftKeepsIn(r, COMMA);
      StripRightKeepsIn(StripLeft(r), COMMA);
      CleanIsClean(reviewers);
      assert Strip(r) in Clean(reviewers);
      ParsedHasNoComma(Print(reviewers));
    }
  }

  lemma SplitOneComma()
    ensures Split("a,b", COMMA) == ["a", "b"]
  {
    hide Split;
    assert "a,b" == "a" + [COMMA] + "b";
    SplitConcat("a", "b", COMMA);
    SplitWithoutSeparator("a", COMMA);
    SplitWithoutSeparator("b", COMMA);
  }

  // One reviewer with a comma comes back as two.
  lemma CommaSplitsReviewer()
    ensures Parse(Print(["a,b"])) == ["a", "b"] != Clean(["a,b"])
  {
    hide Split, Strip, Clean, Print;
    RoundTrip(["a,b"]);
    SplitOneComma();
    CleanFixesClean(["a", "b"]);
    assert Parse("a,b") == ["a", "b"];
    assert Flattened(["a,b"][1..]) == [];
    CleanOne("a,b");
    assert |["a", "b"]| == 2;
  }

  // Storing what was read changes nothing any more.
  lemma ReadingIsStable(stored: string)
    ensures Parse(Print(Parse(stored))) == Parse(stored)
  {
    ParsedHasNoComma(stored);
    RoundTripExactly(Parse(stored));
    CleanIsClean(Split(stored, COMMA));
    CleanFixesClean(Parse(stored));
  }

  // ------------------------------------------------------------ the table

  datatype Rule = Rule(id: string, pattern: string, team: string, reviewers: string, priority: int)

  datatype Listed = Listed(id: string, pattern: string, team: string, reviewers: seq<string>, priority: int)

  ghost predicate ByPriority(rows: seq<Rule>) {
    forall i, j :: 0 <= i < j < |rows| ==> rows[i].priority >= rows[j].priority
  }

  // The rule as the query returns it.
  function Read(r: Rule): Listed { Listed(r.id, r.pattern, r.team, Parse(r.reviewers), r.priority) }

  function InsertAt(rows: seq<Rule>, at: nat, r: Rule): seq<Rule>
    requires at <= |rows|
  {
    rows[..at] + [r] + rows[at..]
  }

  lemma InsertKeepsOrder(rows: seq<Rule>, at: nat, r: Rule)
    requires at <= |rows| && ByPriority(rows)
    requires forall j :: 0 <= j < at ==> rows[j].priority >= r.priority
    requires at < |rows| ==> rows[at].priority < r.priority
    ensures ByPriority(InsertAt(rows, at, r))
    ensures forall j :: 0 <= j < |rows| ==> (j < at <==> rows[j].priority >= r.priority)
  {
    var s := InsertAt(rows, at, r);
    forall j | 0 <= j < |s| ensures s[j] == if j < at then rows[j] else if j == at then r else rows[j - 1] {}
    forall j | at <= j < |rows| ensures rows[j].priority < r.priority {}
  }

  class Rules {
    // Rows of pr_ownership_rules, highest priority first and oldest first among equals.
    var rows: seq<Rule>

    constructor ()
      ensures rows == []
    {
      rows := [];
    }

    // False stands for the exception of a repeated primary key; at is where the new rule is listed.
    method AddOwnershipRule(id: string, pattern: string, team: string, reviewers: seq<string>, priority: int)
      returns (added: bool, ghost at: nat)
      requires ByPriority(rows)
      modifies this
      ensures ByPriority(rows)
      ensures added <==> forall i :: 0 <= i < |old(rows)| ==> old(rows)[i].id != id
      ensures !added ==> rows == old(rows)
      ensures added ==>
                && at <= |old(rows)| && |rows| == |old(rows)| + 1
                && rows == old(rows)[..at] + [rows[at]] + old(rows)[at..]
                && Read(rows[at]) == Listed(id, pattern, team, Flattened(reviewers), priority)
      ensures added ==> forall j :: 0 <= j < |old(rows)| ==> (j < at <==> old(rows)[j].priority >= priority)
    {
      at := 0;
      ghost var was := rows;
      if exists i :: 0 <= i < |rows| && rows[i].id == id {
        return false, at;
      }
      hide Parse, Print, Flattened, InsertAt, ByPriority;
      RoundTrip(reviewers);
      var position := 0;
      while position < |rows| && rows[position].priority >= priority
        invariant position <= |rows| && rows == was
        invariant forall j :: 0 <= j < position ==> rows[j].priority >= priority
      {
        position := position + 1;
      }
      var r := Rule(id, pattern, team, Print(reviewers), priority);
      InsertKeepsOrder(rows, position, r);
      rows := InsertAt(rows, position, r);
      added, at := true, position;
    }

    method GetOwnershipRules() returns (listed: seq<Listed>)
      ensures |listed| == |rows|
      ensures forall i :: 0 <= i < |rows| ==> listed[i] == Read(rows[i])
      ensures forall i :: 0 <= i < |rows| ==> listed[i] == Listed(rows[i].id, rows[i].pattern, rows[i].team,
                                                                  Parse(rows[i].reviewers), rows[i].priority)
    {
      listed := [];
      for i := 0 to |rows|
        invariant |listed| == i
        invariant forall j :: 0 <= j < i ==> listed[j] == Read(rows[j])
      {
        listed := listed + [Read(rows[i])];
      }
    }
  }
}
