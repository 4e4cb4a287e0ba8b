/** The few operations on Unicode text that the other modules share. */
module Text {
  import opened Wrappers

  /** The White_Space property of Unicode, which `trim` removes. */
  predicate IsSpace(c: char) {
    var n := c as int;
    9 <= n <= 13 || n == 32 || n == 0x85 || n == 0xA0 || n == 0x1680 || 0x2000 <= n <= 0x200A
    || n == 0x2028 || n == 0x2029 || n == 0x202F || n == 0x205F || n == 0x3000
  }

  function TrimStart(s: string): string {
    if s != [] && IsSpace(s[0]) then TrimStart(s[1..]) else s
  }

  function TrimEnd(s: string): string {
    if s != [] && IsSpace(s[|s| - 1]) then TrimEnd(s[..|s| - 1]) else s
  }

  function Trim(s: string): string {
    TrimEnd(TrimStart(s))
  }

  function Lower(s: string): (l: string)
    ensures |l| == |s|
  {
    if s == [] then []
    else [if 'A' <= s[0] <= 'Z' then ((s[0] as int) + 32) as char else s[0]] + Lower(s[1..])
  }

  /** The lines with a line feed between any two. */
  function JoinLines(lines: seq<string>): string {
    if lines == [] then []
    else if |lines| == 1 then lines[0]
    else lines[0] + "\n" + JoinLines(lines[1..])
  }

  predicate StartsWith(s: string, prefix: string) {
    prefix <= s
  }

  /** Where `needle` first occurs. */
  function Find(s: string, needle: string): (r: Option<nat>)
    ensures r.Some? ==> r.value + |needle| <= |s| && s[r.value..r.value + |needle|] == needle
  {
    if StartsWith(s, needle) then Some(0)
    else if s == [] then None
    else
      match Find(s[1..], needle)
      case None => None
      case Some(i) => Some(i + 1)
  }

  /** No white space at either end. */
  predicate Tidy(s: string) {
    s == [] || (!IsSpace(s[0]) && !IsSpace(s[|s| - 1]))
  }

  predicate Suffix(t: string, s: string) {
    |t| <= |s| && s[|s| - |t|..] == t
  }

  lemma SuffixTransitive(a: string, b: string, c: string)
    requires Suffix(a, b) && Suffix(b, c)
    ensures Suffix(a, c)
  {
    assert c[|c| - |a|..] == c[|c| - |b|..][|b| - |a|..];
  }

  lemma DropIsSuffix(s: string, k: nat)
    requires k <= |s|
    ensures Suffix(s[k..], s)
  {
  }

  lemma {:induction false} TrimStartIsSuffix(s: string)
    ensures Suffix(TrimStart(s), s)
    ensures TrimStart(s) != [] ==> !IsSpace(TrimStart(s)[0])
  {
    if s != [] && IsSpace(s[0]) {
      TrimStartIsSuffix(s[1..]);
      DropIsSuffix(s, 1);
      SuffixTransitive(TrimStart(s), s[1..], s);
    }
  }

  lemma {:induction false} TrimEndIsPrefix(s: string)
    ensures TrimEnd(s) <= s
    ensures TrimEnd(s) != [] ==> !IsSpace(TrimEnd(s)[|TrimEnd(s)| - 1])
  {
    if s != [] && IsSpace(s[|s| - 1]) {
      TrimEndIsPrefix(s[..|s| - 1]);
    }
  }

  lemma TrimIsTidy(s: string)
    ensures Tidy(Trim(s)) && |Trim(s)| <= |s|
  {
    TrimStartIsSuffix(s);
    TrimEndIsPrefix(TrimStart(s));
  }

  /** Trimming a suffix of a tidy text only removes white space at its start. */
  lemma TrimSuffixOfTidy(t: string, s: string)
    requires Tidy(s) && Suffix(t, s)
    ensures Trim(t) == TrimStart(t) && Tidy(TrimStart(t)) && Suffix(TrimStart(t), s)
  {
    TrimStartIsSuffix(t);
    SuffixTransitive(TrimStart(t), t, s);
    var u := TrimStart(t);
    if u != [] {
      assert u[|u| - 1] == s[|s| - 1];
    }
  }

  lemma {:induction false} TrimStartBefore(a: string, rest: string) returns (a': string)
    requires rest != [] && !IsSpace(rest[0])
    ensures TrimStart(a + rest) == a' + rest && Suffix(a', a)
  {
    var s := a + rest;
    if a == [] {
      assert s == rest;
      a' := [];
    } else if IsSpace(a[0]) {
      assert s[1..] == a[1..] + rest;
      a' := TrimStartBefore(a[1..], rest);
      DropIsSuffix(a, 1);
      SuffixTransitive(a', a[1..], a);
    } else {
      a' := a;
    }
  }

  lemma {:induction false} TrimEndAfter(front: string, b: string) returns (b': string)
    requires front != [] && !IsSpace(front[|front| - 1])
    ensures TrimEnd(front + b) == front + b'
  {
    var s := front + b;
    if b == [] {
      assert s == front;
      b' := [];
    } else if IsSpace(b[|b| - 1]) {
      assert s[..|s| - 1] == front + b[..|b| - 1];
      b' := TrimEndAfter(front, b[..|b| - 1]);
    } else {
      b' := b;
    }
  }

  /** Trimming does not reach into the middle of a text. */
  lemma TrimAround(a: string, middle: string, b: string) returns (a': string, b': string)
    requires middle != [] && !IsSpace(middle[0]) && !IsSpace(middle[|middle| - 1])
    ensures Trim(a + middle + b) == a' + middle + b' && Suffix(a', a)
  {
    assert a + middle + b == a + (middle + b);
    a' := TrimStartBefore(a, middle + b);
    assert a' + (middle + b) == (a' + middle) + b;
    b' := TrimEndAfter(a' + middle, b);
  }

  /** Only blank texts are trimmed to nothing. */
  lemma {:induction false} BlankIsTrimmedAway(s: string)
    ensures Trim(s) == [] <==> forall i | 0 <= i < |s| :: IsSpace(s[i])
  {
    if s != [] {
      if IsSpace(s[0]) {
        BlankIsTrimmedAway(s[1..]);
        assert forall i | 0 < i < |s| :: s[i] == s[1..][i - 1];
      } else {
        TrimEndIsPrefix(s);
        NotAllTrimmed(s);
      }
    }
  }

  lemma {:induction false} NotAllTrimmed(s: string)
    requires s != [] && !IsSpace(s[0])
    ensures TrimEnd(s) != []
  {
    if IsSpace(s[|s| - 1]) {
      NotAllTrimmed(s[..|s| - 1]);
    }
  }

  predicate OccursAt(s: string, needle: string, i: int) {
    0 <= i <= |s| && needle <= s[i..]
  }

  /** `Find` finds the first occurrence, and none only if there is none. */
  lemma {:induction false} FindIsFirst(s: string, needle: string)
    ensures
      match Find(s, needle)
      case None => forall k :: !OccursAt(s, needle, k)
      case Some(i) => OccursAt(s, needle, i) && forall k | k < i :: !OccursAt(s, needle, k)
  {
    if !StartsWith(s, needle) && s != [] {
      FindIsFirst(s[1..], needle);
      forall k | 0 < k <= |s|
        ensures OccursAt(s, needle, k) <==> OccursAt(s[1..], needle, k - 1)
      {
        assert s[k..] == s[1..][k - 1..];
      }
    }
  }

  lemma {:induction false} LowerAt(s: string, i: nat)
    requires i <= |s|
    ensures Lower(s)[i..] == Lower(s[i..])
    ensures i < |s| ==> (Lower(s)[i] == '\n' <==> s[i] == '\n')
  {
    if i > 0 {
      LowerAt(s[1..], i - 1);
      assert Lower(s)[i..] == Lower(s)[1..][i - 1..];
      assert s[1..][i - 1..] == s[i..];
    }
  }

  /** Only the case of ASCII letters is changed. */
  lemma {:induction false} LowerEach(s: string, i: nat)
    requires i < |s|
    ensures Lower(s)[i] == if 'A' <= s[i] <= 'Z' then (s[i] as int + 32) as char else s[i]
  {
    if i > 0 {
      LowerEach(s[1..], i - 1);
    }
  }

  /** Trimming takes off all white space at both ends, and nothing else. */
  lemma TrimTakesOnlySpace(s: string) returns (before: string, after: string)
    ensures s == before + Trim(s) + after && Tidy(Trim(s))
    ensures forall i | 0 <= i < |before| :: IsSpace(before[i])
    ensures forall i | 0 <= i < |after| :: IsSpace(after[i])
  {
    TrimIsTidy(s);
    before := StartTrimmed(s);
    after := EndTrimmed(TrimStart(s));
  }

  lemma {:induction false} StartTrimmed(s: string) returns (before: string)
    ensures s == before + TrimStart(s) && forall i | 0 <= i < |before| :: IsSpace(before[i])
  {
    if s != [] && IsSpace(s[0]) {
      var more := StartTrimmed(s[1..]);
      before := [s[0]] + more;
      assert s == [s[0]] + s[1..];
    } else {
      before := [];
    }
  }

  lemma {:induction false} EndTrimmed(s: string) returns (after: string)
    ensures s == TrimEnd(s) + after && forall i | 0 <= i < |after| :: IsSpace(after[i])
  {
    if s != [] && IsSpace(s[|s| - 1]) {
      var more := EndTrimmed(s[..|s| - 1]);
      after := more + [s[|s| - 1]];
      assert s == s[..|s| - 1] + [s[|s| - 1]];
    } else {
      after := [];
    }
  }

  /** The pieces between line feeds. */
  function SplitLines(s: string): (lines: seq<string>)
    ensures lines != []
  {
    if s == [] then [[]]
    else
      var rest := SplitLines(s[1..]);
      if s[0] == '\n' then [[]] + rest else [[s[0]] + rest[0]] + rest[1..]
  }

  lemma {:induction false} SplitFirst(line: string, rest: string)
    requires '\n' !in line
    ensures SplitLines(line + "\n" + rest) == [line] + SplitLines(rest)
    ensures SplitLines(line) == [line]
  {
    var s := line + "\n" + rest;
    if line == [] {
      assert s[1..] == rest;
    } else {
      assert s[1..] == line[1..] + "\n" + rest;
      assert line[0] in line;
      SplitFirst(line[1..], rest);
      assert [line[0]] + line[1..] == line;
    }
  }

  /** Joined lines are told apart again. */
  lemma {:induction false} JoinedLinesSplit(lines: seq<string>)
    requires lines != [] && forall l | l in lines :: '\n' !in l
    ensures SplitLines(JoinLines(lines)) == lines
  {
    if |lines| == 1 {
      SplitFirst(lines[0], []);
    } else {
      JoinedLinesSplit(lines[1..]);
      SplitFirst(lines[0], JoinLines(lines[1..]));
    }
  }
}
