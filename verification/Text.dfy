// The string operations of Python that the database layer uses.
module Text {

  // Characters that str.strip removes.
  predicate IsSpace(c: char) {
    var n := c as int;
    || 9 <= n <= 13 || 28 <= n <= 32 || n == 133 || n == 160 || n == 5760
    || 8192 <= n <= 8202 || n == 8232 || n == 8233 || n == 8239 || n == 8287 || n == 12288
  }

  function StripLeft(s: string): (r: string)
    ensures |r| <= |s|
  {
    if s != "" && IsSpace(s[0]) then StripLeft(s[1..]) else s
  }

  function StripRight(s: string): (r: string)
    ensures |r| <= |s|
  {
    if s != "" && IsSpace(s[|s| - 1]) then StripRight(s[..|s| - 1]) else s
  }

  function Strip(s: string): string { StripRight(StripLeft(s)) }

  // Lower case of the ASCII letters.
  function LowerChar(c: char): char {
    if 'A' <= c <= 'Z' then (c as int + 32) as char else c
  }

  // d is c in lower case, ASCII letters only.
  predicate IsLowerOf(d: char, c: char) {
    if 'A' <= c <= 'Z' then d as int - 'a' as int == c as int - 'A' as int else d == c
  }

  lemma LowerIsLower(c: char)
    ensures IsLowerOf(LowerChar(c), c)
    ensures forall d :: IsLowerOf(d, c) ==> d == LowerChar(c)
  {
  }

  function Lower(s: string): string { seq(|s|, i requires 0 <= i < |s| => LowerChar(s[i])) }

  ghost predicate SameLetter(c: char, d: char) { exists l :: IsLowerOf(l, c) && IsLowerOf(l, d) }

  // Equal but for the case of ASCII letters.
  ghost predicate SameButCase(a: string, b: string) {
    |a| == |b| && forall i :: 0 <= i < |a| ==> SameLetter(a[i], b[i])
  }

  lemma SameLetterMeans(c: char, d: char)
    ensures SameLetter(c, d) <==> LowerChar(c) == LowerChar(d)
  {
    LowerIsLower(c);
    LowerIsLower(d);
  }

  lemma LowerMeans(a: string, b: string)
    ensures Lower(a) == Lower(b) <==> SameButCase(a, b)
  {
    forall c, d ensures SameLetter(c, d) <==> LowerChar(c) == LowerChar(d) {
      SameLetterMeans(c, d);
    }
    hide LowerChar, SameLetter;
    assert |Lower(a)| == |a| && |Lower(b)| == |b|;
    assert forall i :: 0 <= i < |a| ==> Lower(a)[i] == LowerChar(a[i]);
    assert forall i :: 0 <= i < |b| ==> Lower(b)[i] == LowerChar(b[i]);
  }

  function RemoveSpaces(s: string): string {
    if s == "" then ""
    else if s[0] == ' ' then RemoveSpaces(s[1..])
    else [s[0]] + RemoveSpaces(s[1..])
  }

  function Shifted(at: seq<nat>): seq<nat> { seq(|at|, k requires 0 <= k < |at| => at[k] + 1) }

  lemma ShiftedHas(at: seq<nat>, i: nat)
    ensures i in Shifted(at) <==> i > 0 && i - 1 in at
  {
    if i > 0 && i - 1 in at {
      var k :| 0 <= k < |at| && at[k] == i - 1;
      assert Shifted(at)[k] == i;
    }
  }

  // What is left are the other characters, in order.
  lemma {:induction false} RemoveSpacesKeeps(s: string) returns (at: seq<nat>)
    ensures |at| == |RemoveSpaces(s)|
    ensures forall k :: 0 <= k < |at| ==> at[k] < |s| && s[at[k]] == RemoveSpaces(s)[k]
    ensures forall k, l :: 0 <= k < l < |at| ==> at[k] < at[l]
    ensures forall i: nat :: i < |s| ==> (i in at <==> s[i] != ' ')
  {
    at := [];
    if s != "" {
      var rest := RemoveSpacesKeeps(s[1..]);
      forall i: nat ensures i in Shifted(rest) <==> i > 0 && i - 1 in rest {
        ShiftedHas(rest, i);
      }
      at := if s[0] == ' ' then Shifted(rest) else [0] + Shifted(rest);
    }
  }

  // s.split(sep)
  function Split(s: string, sep: char): (r: seq<string>)
    ensures |r| > 0
  {
    if s == "" then [""] else Prepend(s[0], Split(s[1..], sep), sep)
  }

  // The pieces after one more character in front.
  function Prepend(c: char, pieces: seq<string>, sep: char): (r: seq<string>)
    requires |pieces| > 0
    ensures |r| > 0
  {
    if c == sep then [""] + pieces else [[c] + pieces[0]] + pieces[1..]
  }

  // sep.join(parts)
  function Join(parts: seq<string>, sep: char): string {
    if parts == [] then ""
    else if |parts| == 1 then parts[0]
    else parts[0] + [sep] + Join(parts[1..], sep)
  }

  // ------------------------------------------------------------ splitting

  lemma {:induction false} SplitWithoutSeparator(s: string, sep: char)
    requires sep !in s
    ensures Split(s, sep) == [s]
  {
    if s != "" {
      SplitWithoutSeparator(s[1..], sep);
      assert s == [s[0]] + s[1..];
    }
  }

  lemma {:induction false} PiecesHaveNoSeparator(s: string, sep: char)
    ensures forall p :: p in Split(s, sep) ==> sep !in p
  {
    if s != "" {
      PiecesHaveNoSeparator(s[1..], sep);
    }
  }

  lemma PrependConcat(c: char, left: seq<string>, right: seq<string>, sep: char)
    requires |left| > 0
    ensures Prepend(c, left + right, sep) == Prepend(c, left, sep) + right
  {
  }

  lemma {:induction false} SplitConcat(a: string, b: string, sep: char)
    ensures Split(a + [sep] + b, sep) == Split(a, sep) + Split(b, sep)
  {
    var s := a + [sep] + b;
    if a == "" {
      assert s[0] == sep && s[1..] == b;
    } else {
      var t := a[1..] + [sep] + b;
      assert s[0] == a[0] && s[1..] == t;
      SplitConcat(a[1..], b, sep);
      hide Prepend;
      PrependConcat(a[0], Split(a[1..], sep), Split(b, sep), sep);
    }
  }

  // Splitting a joined list splits each part.
  lemma {:induction false} SplitJoin(parts: seq<string>, sep: char)
    requires parts != [] && forall p :: p in parts ==> sep !in p
    ensures Split(Join(parts, sep), sep) == parts
  {
    SplitWithoutSeparator(parts[0], sep);
    if |parts| > 1 {
      SplitJoin(parts[1..], sep);
      SplitConcat(parts[0], Join(parts[1..], sep), sep);
    }
  }

  // ------------------------------------------------------------ stripping

  predicate Stripped(s: string) {
    s == "" || (!IsSpace(s[0]) && !IsSpace(s[|s| - 1]))
  }

  lemma {:induction false} StripRightShape(s: string)
    ensures var r := StripRight(s);
            && r == s[..|r|] && (r == "" || !IsSpace(r[|r| - 1]))
            && forall i :: |r| <= i < |s| ==> IsSpace(s[i])
  {
    if s != "" && IsSpace(s[|s| - 1]) {
      StripRightShape(s[..|s| - 1]);
    }
  }

  lemma {:induction false} StripLeftShape(s: string)
    ensures var r := StripLeft(s);
            && r == s[|s| - |r|..] && (r == "" || !IsSpace(r[0]))
            && forall i :: 0 <= i < |s| - |r| ==> IsSpace(s[i])
  {
    if s != "" && IsSpace(s[0]) {
      var rest := s[1..];
      StripLeftShape(rest);
      forall i | 0 < i < |s| ensures s[i] == rest[i - 1] {}
    }
  }

  // Stripping cuts out a stretch with nothing but white space outside it.
  lemma StripIsSlice(s: string) returns (start: nat)
    ensures start + |Strip(s)| <= |s| && Strip(s) == s[start..start + |Strip(s)|]
    ensures forall i :: 0 <= i < start || start + |Strip(s)| <= i < |s| ==> IsSpace(s[i])
  {
    StripLeftShape(s);
    StripRightShape(StripLeft(s));
    start := |s| - |StripLeft(s)|;
    var left := StripLeft(s);
    forall i | start + |Strip(s)| <= i < |s| ensures IsSpace(s[i]) {
      assert left[i - start] == s[i];
    }
  }

  // Two stretches without white space at their ends and with nothing but white space outside are one.
  lemma StripOfPadded(before: string, core: string, after: string)
    requires forall i :: 0 <= i < |before| ==> IsSpace(before[i])
    requires forall i :: 0 <= i < |after| ==> IsSpace(after[i])
    ensures Strip(before + core + after) == Strip(core)
  {
    StripLeftPadded(before, core + after);
    assert before + core + after == before + (core + after);
    StripRightPadded(core, after);
  }

  lemma {:induction false} StripLeftPadded(before: string, s: string)
    requires forall i :: 0 <= i < |before| ==> IsSpace(before[i])
    ensures StripLeft(before + s) == StripLeft(s)
  {
    if before == "" {
      assert before + s == s;
    } else {
      assert (before + s)[1..] == before[1..] + s;
      StripLeftPadded(before[1..], s);
    }
  }

  lemma {:induction false} StripRightPadded(s: string, after: string)
    requires forall i :: 0 <= i < |after| ==> IsSpace(after[i])
    ensures Strip(s + after) == Strip(s)
  {
    if after == "" {
      assert s + after == s;
    } else {
      var init, last := after[..|after| - 1], after[|after| - 1];
      assert s + after == (s + init) + [last];
      StripRightPadded(s, init);
      StripBack(s + init, last);
    }
  }

  lemma {:induction false} StripLeftSnoc(s: string, c: char)
    requires IsSpace(c)
    ensures StripLeft(s + [c]) == if StripLeft(s) == "" then "" else StripLeft(s) + [c]
  {
    if s == "" {
      assert s + [c] == [c];
    } else {
      assert (s + [c])[1..] == s[1..] + [c];
      if IsSpace(s[0]) {
        StripLeftSnoc(s[1..], c);
      }
    }
  }

  lemma StripBack(s: string, c: char)
    requires IsSpace(c)
    ensures Strip(s + [c]) == Strip(s)
  {
    StripLeftSnoc(s, c);
    var left := StripLeft(s);
    assert (left + [c])[..|left|] == left;
  }

  // Blanks, tabs and line ends are white space; no visible ASCII character is.
  lemma WhiteSpaceOfAscii(c: char)
    ensures c == ' ' || c == '\t' || c == '\n' || c == '\r' ==> IsSpace(c)
    ensures '!' <= c <= '~' ==> !IsSpace(c)
  {
  }

  lemma StripIsStripped(s: string)
    ensures Stripped(Strip(s))
  {
    StripLeftShape(s);
    StripRightShape(StripLeft(s));
  }

  lemma StripFixesStripped(s: string)
    requires Stripped(s)
    ensures Strip(s) == s
  {
  }

  lemma StripKeepsOut(s: string, c: char)
    requires c !in s
    ensures c !in Strip(s)
  {
    StripLeftShape(s);
    StripRightShape(StripLeft(s));
  }
}
