/**
 What counts as the result of a task in the model's text (`sanitize_task_result` and its helpers,
 src/agent/run.rs): leading reasoning blocks are stripped, a marked final answer is extracted, and
 texts that are empty or only reasoning are rejected.
 */
module Sanitizer {
  import opened Wrappers
  import opened Text

  datatype Sanitized = Accepted(text: string) | Rejected(reason: string)

  const EMPTY_RESULT := "execution returned an empty result"
  const REASONING_ONLY := "execution returned reasoning-only output"

  const TAGS := ["think", "analysis", "reasoning", "scratchpad"]
  const MARKERS := ["final answer:", "answer:", "final:"]

  function FirstTag(lower: string, tags: seq<string>): Option<string> {
    if tags == [] then None
    else if StartsWith(lower, "<" + tags[0] + ">") || StartsWith(lower, "<" + tags[0] + " ") then Some(tags[0])
    else FirstTag(lower, tags[1..])
  }

  function LeadingReasoningTag(text: string): Option<string> {
    FirstTag(Lower(TrimStart(text)), TAGS)
  }

  /** What follows the first `close` after the first '>'. */
  function AfterClose(current: string, close: string): (r: Option<string>)
    ensures r.Some? ==> Suffix(r.value, current) && |r.value| < |current|
  {
    match Find(current, ">")
    case None => None
    case Some(i) =>
      var remainder := current[i + 1..];
      match Find(remainder, close)
      case None => None
      case Some(j) => Some(remainder[j + |close|..])
  }

  /** The text after one leading block, or none if the block does not close. */
  function AfterBlock(current: string, tag: string): Option<string> {
    match AfterClose(current, "</" + tag + ">")
    case None => None
    case Some(rest) => Some(Trim(rest))
  }

  lemma AfterBlockIsShorter(current: string, tag: string)
    requires AfterBlock(current, tag).Some?
    ensures |AfterBlock(current, tag).value| < |current|
  {
    TrimIsTidy(AfterClose(current, "</" + tag + ">").value);
  }

  /** The text without its leading reasoning blocks; none if nothing would be left. */
  function StripBlocks(current: string): Option<string>
    decreases |current|
  {
    match LeadingReasoningTag(current)
    case None => Some(current)
    case Some(tag) =>
      match AfterBlock(current, tag)
      case None => None
      case Some(rest) =>
        AfterBlockIsShorter(current, tag);
        if rest == [] then None else StripBlocks(rest)
  }

  function FirstMarked(trimmed: string, lower: string, markers: seq<string>): Option<string>
    requires |trimmed| == |lower|
  {
    if markers == [] then None
    else if StartsWith(lower, markers[0]) then Some(TrimStart(trimmed[|markers[0]|..]))
    else
      match Find(lower, "\n" + markers[0])
      case Some(i) => Some(TrimStart(trimmed[i + |markers[0]| + 1..]))
      case None => FirstMarked(trimmed, lower, markers[1..])
  }

  function ExtractMarkedFinalAnswer(text: string): Option<string> {
    var trimmed := TrimStart(text);
    FirstMarked(trimmed, Lower(trimmed), MARKERS)
  }

  const REASONING_PREFIXES := [
    "<think", "reasoning:", "analysis:", "scratchpad:",
    "okay, let's", "let's tackle", "first, i need", "first, let me", "the user wants",
    "looking at the retrieved facts", "check raw context"]

  predicate LooksLikeReasoningOnly(text: string) {
    var trimmed := Trim(text);
    trimmed == [] || exists i | 0 <= i < |REASONING_PREFIXES| :: StartsWith(Lower(trimmed), REASONING_PREFIXES[i])
  }

  function Judge(current: string): Sanitized {
    if current == [] then Rejected(EMPTY_RESULT)
    else if LooksLikeReasoningOnly(current) then Rejected(REASONING_ONLY)
    else Accepted(current)
  }

  function SanitizeTaskResult(text: string): Sanitized {
    var current := Trim(text);
    if current == [] then Rejected(EMPTY_RESULT)
    else
      match StripBlocks(current)
      case None => Rejected(REASONING_ONLY)
      case Some(stripped) =>
        match ExtractMarkedFinalAnswer(stripped)
        case None => Judge(stripped)
        case Some(answer) => Judge(answer)
  }

  method Sanitize(text: string) returns (r: Sanitized)
    ensures r == SanitizeTaskResult(text)
  {
    var current := Trim(text);
    if current == [] {
      return Rejected(EMPTY_RESULT);
    }
    while true
      invariant StripBlocks(Trim(text)) == StripBlocks(current)
      decreases |current|
    {
      var tag := LeadingReasoningTag(current);
      if tag.None? {
        break;
      }
      var rest := AfterBlock(current, tag.value);
      if rest.None? || rest.value == [] {
        return Rejected(REASONING_ONLY);
      }
      AfterBlockIsShorter(current, tag.value);
      current := rest.value;
    }
    var extracted := ExtractMarkedFinalAnswer(current);
    if extracted.Some? {
      current := extracted.value;
    }
    return Judge(current);
  }

  // ---- What is accepted ----

  lemma AfterBlockIsTidySuffix(current: string, tag: string)
    requires Tidy(current) && AfterBlock(current, tag).Some?
    ensures Tidy(AfterBlock(current, tag).value) && Suffix(AfterBlock(current, tag).value, current)
  {
    TrimSuffixOfTidy(AfterClose(current, "</" + tag + ">").value, current);
  }

  lemma {:induction false} StripIsTidySuffix(current: string)
    requires Tidy(current) && StripBlocks(current).Some?
    ensures Tidy(StripBlocks(current).value) && Suffix(StripBlocks(current).value, current)
    ensures LeadingReasoningTag(StripBlocks(current).value).None?
    decreases |current|
  {
    match LeadingReasoningTag(current) {
      case None =>
      case Some(tag) =>
        var rest := AfterBlock(current, tag).value;
        AfterBlockIsShorter(current, tag);
        AfterBlockIsTidySuffix(current, tag);
        StripIsTidySuffix(rest);
        SuffixTransitive(StripBlocks(rest).value, rest, current);
    }
  }

  lemma {:induction false} MarkedIsTidySuffix(trimmed: string, lower: string, markers: seq<string>)
    requires Tidy(trimmed) && |trimmed| == |lower| && FirstMarked(trimmed, lower, markers).Some?
    requires forall i | 0 <= i < |markers| :: markers[i] != []
    ensures
      var answer := FirstMarked(trimmed, lower, markers).value;
      Tidy(answer) && Suffix(answer, trimmed) && |answer| < |trimmed|
  {
    if StartsWith(lower, markers[0]) {
      DropIsSuffix(trimmed, |markers[0]|);
      TrimSuffixOfTidy(trimmed[|markers[0]|..], trimmed);
      TrimIsTidy(trimmed[|markers[0]|..]);
    } else {
      match Find(lower, "\n" + markers[0]) {
        case Some(i) =>
          DropIsSuffix(trimmed, i + |markers[0]| + 1);
          TrimSuffixOfTidy(trimmed[i + |markers[0]| + 1..], trimmed);
          TrimIsTidy(trimmed[i + |markers[0]| + 1..]);
        case None => MarkedIsTidySuffix(trimmed, lower, markers[1..]);
      }
    }
  }

  lemma ExtractedIsTidySuffix(text: string)
    requires Tidy(text) && ExtractMarkedFinalAnswer(text).Some?
    ensures
      var answer := ExtractMarkedFinalAnswer(text).value;
      Tidy(answer) && Suffix(answer, text) && |answer| < |text|
  {
    assert TrimStart(text) == text;
    MarkedIsTidySuffix(text, Lower(text), MARKERS);
  }

  lemma TidyIsTrimmed(s: string)
    requires Tidy(s)
    ensures Trim(s) == s && TrimStart(s) == s
  {
  }

  /** Whatever is accepted is a non-blank piece from the end of the trimmed text. */
  lemma AcceptedIsSuffix(text: string)
    requires SanitizeTaskResult(text).Accepted?
    ensures
      var accepted := SanitizeTaskResult(text).text;
      accepted != [] && Tidy(accepted) && Trim(accepted) == accepted && Suffix(accepted, Trim(text))
  {
    var current := Trim(text);
    TrimIsTidy(text);
    StripIsTidySuffix(current);
    var stripped := StripBlocks(current).value;
    if ExtractMarkedFinalAnswer(stripped).Some? {
      ExtractedIsTidySuffix(stripped);
      SuffixTransitive(ExtractMarkedFinalAnswer(stripped).value, stripped, current);
    }
    TidyIsTrimmed(SanitizeTaskResult(text).text);
  }

  lemma {:induction false} StripIsShorter(current: string)
    requires LeadingReasoningTag(current).Some? && StripBlocks(current).Some?
    ensures |StripBlocks(current).value| < |current|
    decreases |current|
  {
    var tag := LeadingReasoningTag(current).value;
    var rest := AfterBlock(current, tag).value;
    AfterBlockIsShorter(current, tag);
    if LeadingReasoningTag(rest).Some? {
      StripIsShorter(rest);
    }
  }

  lemma ResanitizeChanges(t: string)
    requires Tidy(t) && t != []
    requires LeadingReasoningTag(t).Some? || ExtractMarkedFinalAnswer(t).Some?
    ensures SanitizeTaskResult(t) != Accepted(t)
  {
    TidyIsTrimmed(t);
    if StripBlocks(t).Some? {
      StripIsTidySuffix(t);
      var stripped := StripBlocks(t).value;
      if LeadingReasoningTag(t).Some? {
        StripIsShorter(t);
      }
      if ExtractMarkedFinalAnswer(stripped).Some? {
        ExtractedIsTidySuffix(stripped);
      }
    }
  }

  /**
   Review and persistence sanitize an accepted result again. That gives back the same text if and
   only if the text shows no leading reasoning tag and no answer marker; otherwise it is cut
   further or rejected.
   */
  lemma ResanitizeIsIdentityExactly(text: string)
    requires SanitizeTaskResult(text).Accepted?
    ensures
      var accepted := SanitizeTaskResult(text).text;
      SanitizeTaskResult(accepted) == Accepted(accepted) <==>
      LeadingReasoningTag(accepted).None? && ExtractMarkedFinalAnswer(accepted).None?
  {
    var t := SanitizeTaskResult(text).text;
    AcceptedIsSuffix(text);
    assert Judge(t) == Accepted(t);
    if LeadingReasoningTag(t).Some? || ExtractMarkedFinalAnswer(t).Some? {
      ResanitizeChanges(t);
    } else {
      assert StripBlocks(t) == Some(t);
    }
  }

  /** In particular, a result that was accepted without extracting a marked answer stays as it is. */
  lemma UnmarkedResultIsStable(text: string)
    requires SanitizeTaskResult(text).Accepted? && ExtractMarkedFinalAnswer(StripBlocks(Trim(text)).value).None?
    ensures SanitizeTaskResult(SanitizeTaskResult(text).text) == SanitizeTaskResult(text)
  {
    TrimIsTidy(text);
    StripIsTidySuffix(Trim(text));
    ResanitizeIsIdentityExactly(text);
  }

  // ---- Sanitizing twice can differ ----

  lemma {:induction false} LowerIsItself(s: string)
    requires forall i | 0 <= i < |s| :: !('A' <= s[i] <= 'Z')
    ensures Lower(s) == s
  {
    if s != [] {
      LowerIsItself(s[1..]);
    }
  }

  lemma {:induction false} FindNeedsItsFirst(s: string, needle: string)
    requires needle != [] && needle[0] !in s
    ensures Find(s, needle).None?
  {
    if s != [] {
      FindNeedsItsFirst(s[1..], needle);
    }
  }

  lemma DiffersAt(s: string, prefix: string, i: nat)
    requires i < |s| && i < |prefix| && s[i] != prefix[i]
    ensures !StartsWith(s, prefix)
  {
  }

  lemma NoTag(s: string)
    requires s != [] && s[0] != '<' && s[0] != ' ' && Lower(s) == s && TrimStart(s) == s
    ensures LeadingReasoningTag(s).None?
  {
    assert FirstTag(s, TAGS[3..]).None?;
    assert FirstTag(s, TAGS[2..]).None?;
    assert FirstTag(s, TAGS[1..]).None?;
  }

  lemma PrefixesStartWithoutParenthesis(i: nat)
    requires i < |REASONING_PREFIXES|
    ensures REASONING_PREFIXES[i] != [] && REASONING_PREFIXES[i][0] != '('
  {
  }

  lemma NoMarker(s: string)
    requires s != [] && s[0] == '(' && '\n' !in s
    ensures FirstMarked(s, s, MARKERS).None?
  {
    forall i | 0 <= i < |MARKERS|
      ensures !StartsWith(s, MARKERS[i]) && Find(s, "\n" + MARKERS[i]).None?
    {
      assert MARKERS[i] != [] && MARKERS[i][0] != '(';
      DiffersAt(s, MARKERS[i], 0);
      FindNeedsItsFirst(s, "\n" + MARKERS[i]);
    }
    assert FirstMarked(s, s, MARKERS[2..]).None?;
    assert FirstMarked(s, s, MARKERS[1..]).None?;
  }

  /** A single line in parentheses is accepted as it is. */
  lemma ParenthesizedLineIsAccepted(t: string)
    requires t != [] && t[0] == '(' && Tidy(t) && '\n' !in t && Lower(t) == t
    ensures SanitizeTaskResult(t + "\n") == Accepted(t)
  {
    var s := t + "\n";
    TidyIsTrimmed(t);
    assert TrimStart(s) == s;
    assert s[..|s| - 1] == t;
    NoTag(t);
    NoMarker(t);
    forall i | 0 <= i < |REASONING_PREFIXES|
      ensures !StartsWith(t, REASONING_PREFIXES[i])
    {
      PrefixesStartWithoutParenthesis(i);
      DiffersAt(t, REASONING_PREFIXES[i], 0);
    }
  }

  /** The answer marker hides a reasoning block from the first pass: the text is accepted once, and
      what was accepted is refused when it is sanitized again. */
  lemma AcceptedOnceRefusedTwice(text: string, answer: string)
    requires text == "answer:<analysis>x" && answer == "<analysis>x"
    ensures SanitizeTaskResult(text) == Accepted(answer)
    ensures SanitizeTaskResult(answer) == Rejected(REASONING_ONLY)
  {
    FirstPass(text, answer);
    SecondPass(answer);
  }

  lemma FirstPass(s: string, answer: string)
    requires s == "answer:<analysis>x" && answer == "<analysis>x"
    ensures SanitizeTaskResult(s) == Accepted(answer)
  {
    TidyIsTrimmed(s);
    TidyIsTrimmed(answer);
    LowerIsItself(s);
    LowerIsItself(answer);
    NoTag(s);
    AnswerExtracted(s, answer);
    NotReasoning(answer);
  }

  lemma AnswerExtracted(s: string, answer: string)
    requires s == "answer:<analysis>x" && answer == "<analysis>x"
    ensures FirstMarked(s, s, MARKERS) == Some(answer)
  {
    DiffersAt(s, MARKERS[0], 0);
    FindNeedsItsFirst(s, "\n" + MARKERS[0]);
    assert FirstMarked(s, s, MARKERS) == FirstMarked(s, s, MARKERS[1..]);
    assert s[..7] == MARKERS[1] && MARKERS[1..][0] == MARKERS[1];
    assert s[7..] == answer;
  }

  lemma OtherPrefixesStartElsewhere(i: nat)
    requires 0 < i < |REASONING_PREFIXES|
    ensures REASONING_PREFIXES[i] != [] && REASONING_PREFIXES[i][0] != '<'
  {
  }

  lemma NotReasoning(s: string)
    requires Trim(s) == s && |s| > 1 && s[0] == '<' && s[1] == 'a' && Lower(s) == s
    ensures !LooksLikeReasoningOnly(s)
  {
    forall i | 0 <= i < |REASONING_PREFIXES|
      ensures !StartsWith(s, REASONING_PREFIXES[i])
    {
      if i == 0 {
        DiffersAt(s, "<think", 1);
      } else {
        OtherPrefixesStartElsewhere(i);
        DiffersAt(s, REASONING_PREFIXES[i], 0);
      }
    }
  }

  lemma AnalysisTag(s: string)
    requires s == "<analysis>x"
    ensures FirstTag(s, TAGS) == Some("analysis")
  {
    DiffersAt(s, "<" + TAGS[0] + ">", 1);
    DiffersAt(s, "<" + TAGS[0] + " ", 1);
    assert s[..10] == "<" + TAGS[1] + ">" && TAGS[1..][0] == TAGS[1];
    assert FirstTag(s, TAGS) == FirstTag(s, TAGS[1..]);
  }

  lemma NeverClosed(s: string, close: string)
    requires s == "<analysis>x" && close != [] && close[0] == '<'
    ensures AfterClose(s, close).None?
  {
    match Find(s, ">") {
      case None =>
      case Some(i) =>
        assert s[i..i + 1][0] == s[i] == '>';
        assert s[i + 1..] == "x";
        FindNeedsItsFirst("x", close);
    }
  }

  lemma SecondPass(s: string)
    requires s == "<analysis>x"
    ensures SanitizeTaskResult(s) == Rejected(REASONING_ONLY)
  {
    TidyIsTrimmed(s);
    LowerIsItself(s);
    AnalysisTag(s);
    NeverClosed(s, "</" + TAGS[1] + ">");
    assert AfterBlock(s, TAGS[1]).None?;
  }

  // ---- What a result is, without the steps ----

  /** The text begins with an opening tag, in any letter case, with attributes or without. */
  predicate BeginsBlock(text: string, tag: string) {
    OccursAt(Lower(text), "<" + tag + ">", 0) || OccursAt(Lower(text), "<" + tag + " ", 0)
  }

  function Closing(tag: string): string {
    "</" + tag + ">"
  }

  /** The opening tag ends at `i`, and the first closing tag after it begins at `j`. */
  ghost predicate BlockEnds(text: string, tag: string, i: int, j: int) {
    && OccursAt(text, ">", i) && (forall m | m < i :: !OccursAt(text, ">", m))
    && i < j && OccursAt(text, Closing(tag), j) && (forall m | i < m < j :: !OccursAt(text, Closing(tag), m))
  }

  lemma {:induction false} FirstTagBegins(text: string, tags: seq<string>)
    ensures
      match FirstTag(Lower(text), tags)
      case None => forall k | 0 <= k < |tags| :: !BeginsBlock(text, tags[k])
      case Some(tag) => tag in tags && BeginsBlock(text, tag)
  {
    assert Lower(text)[0..] == Lower(text);
    if tags != [] {
      FirstTagBegins(text, tags[1..]);
    }
  }

  lemma AfterCloseIsAfterBlock(text: string, tag: string)
    ensures
      match AfterClose(text, Closing(tag))
      case None => forall i, j :: !BlockEnds(text, tag, i, j)
      case Some(rest) =>
        exists i, j :: BlockEnds(text, tag, i, j) && j + |Closing(tag)| <= |text| && rest == text[j + |Closing(tag)|..]
  {
    var close := Closing(tag);
    FindIsFirst(text, ">");
    var found := Find(text, ">");
    if found.Some? {
      var i := found.value;
      var remainder := text[i + 1..];
      FindIsFirst(remainder, close);
      forall m | i < m <= |text|
        ensures OccursAt(text, close, m) <==> OccursAt(remainder, close, m - i - 1)
      {
        assert text[m..] == remainder[m - i - 1..];
      }
      var second := Find(remainder, close);
      if second.Some? {
        var j := i + 1 + second.value;
        assert BlockEnds(text, tag, i, j);
        assert remainder[second.value + |close|..] == text[j + |close|..];
      } else {
        forall a, b
          ensures !BlockEnds(text, tag, a, b)
        {
          assert OccursAt(text, ">", i);
        }
      }
    }
  }

  /** White space around a text does not matter. */
  lemma SurroundingsDoNotMatter(text: string)
    ensures SanitizeTaskResult(text) == SanitizeTaskResult(Trim(text))
  {
    TrimIsTidy(text);
    TidyIsTrimmed(Trim(text));
  }

  lemma OneTag(text: string, a: string, b: string)
    requires a in TAGS && b in TAGS && BeginsBlock(text, a) && BeginsBlock(text, b)
    ensures a == b
  {
    var lower := Lower(text);
    assert lower[0..] == lower;
    assert lower[1] == a[0] && lower[1] == b[0];
  }

  lemma TagIsFound(text: string, tag: string)
    requires Tidy(text) && tag in TAGS && BeginsBlock(text, tag)
    ensures LeadingReasoningTag(text) == Some(tag)
  {
    TidyIsTrimmed(text);
    FirstTagBegins(text, TAGS);
    OneTag(text, tag, FirstTag(Lower(text), TAGS).value);
  }

  lemma AfterOneBlock(text: string, tag: string)
    requires Tidy(text) && text != [] && LeadingReasoningTag(text) == Some(tag)
    ensures
      SanitizeTaskResult(text)
      == match AfterClose(text, Closing(tag))
         case None => Rejected(REASONING_ONLY)
         case Some(rest) => if Trim(rest) == [] then Rejected(REASONING_ONLY) else SanitizeTaskResult(Trim(rest))
  {
    hide AfterClose, LeadingReasoningTag, ExtractMarkedFinalAnswer, Judge;
    TidyIsTrimmed(text);
    var after := AfterClose(text, Closing(tag));
    if after.Some? {
      TrimIsTidy(after.value);
      TidyIsTrimmed(Trim(after.value));
      assert AfterBlock(text, tag) == Some(Trim(after.value));
    }
  }

  /** A text that begins with a reasoning block is judged by what follows the block; a block that is never closed,
      or followed by nothing, is reasoning only. */
  lemma LeadingBlockIsDropped(text: string, tag: string)
    requires Tidy(text) && tag in TAGS && BeginsBlock(text, tag)
    ensures (forall i, j :: !BlockEnds(text, tag, i, j)) ==> SanitizeTaskResult(text) == Rejected(REASONING_ONLY)
    ensures (exists i, j :: BlockEnds(text, tag, i, j)) ==>
              exists i, j :: BlockEnds(text, tag, i, j) && j + |Closing(tag)| <= |text|
                && var rest := text[j + |Closing(tag)|..];
                   SanitizeTaskResult(text)
                   == if Trim(rest) == [] then Rejected(REASONING_ONLY) else SanitizeTaskResult(rest)
  {
    hide SanitizeTaskResult, AfterClose, BlockEnds, LeadingReasoningTag;
    TagIsFound(text, tag);
    AfterCloseIsAfterBlock(text, tag);
    AfterOneBlock(text, tag);
    var after := AfterClose(text, Closing(tag));
    if after.Some? {
      SurroundingsDoNotMatter(after.value);
    }
  }

  /** A marker, in any letter case, at the start of a line. */
  predicate MarkerAt(text: string, marker: string, i: int) {
    OccursAt(Lower(text), marker, i) && (i == 0 || text[i - 1] == '\n')
  }

  /** The first place of the first marker that has one. */
  ghost predicate AnswerAt(text: string, markers: seq<string>, k: int, i: int) {
    && 0 <= k < |markers| && 0 <= i && MarkerAt(text, markers[k], i)
    && (forall m | m < i :: !MarkerAt(text, markers[k], m))
    && (forall l, m | 0 <= l < k :: !MarkerAt(text, markers[l], m))
  }

  lemma PrefixAfterOne(s: string, first: char, rest: string)
    requires s != []
    ensures [first] + rest <= s <==> s[0] == first && rest <= s[1..]
  {
    var whole := [first] + rest;
    if whole <= s {
      assert s[..|whole|][1..] == s[1..][..|rest|] && whole[1..] == rest && whole[0] == first;
    }
    if s[0] == first && rest <= s[1..] {
      assert s[..|whole|] == [s[0]] + s[1..][..|rest|];
    }
  }

  lemma MarkerAfterFeed(text: string, marker: string, m: int)
    requires 0 < m <= |text|
    ensures MarkerAt(text, marker, m) <==> OccursAt(Lower(text), "\n" + marker, m - 1)
  {
    var here := Lower(text)[m - 1..];
    LowerAt(text, m - 1);
    assert here[1..] == Lower(text)[m..];
    PrefixAfterOne(here, '\n', marker);
    hide Lower;
  }

  lemma MarkerOnLaterLine(text: string, marker: string)
    requires !OccursAt(Lower(text), marker, 0)
    ensures
      match Find(Lower(text), "\n" + marker)
      case None => forall m :: !MarkerAt(text, marker, m)
      case Some(i) => MarkerAt(text, marker, i + 1) && forall m | m < i + 1 :: !MarkerAt(text, marker, m)
  {
    FindIsFirst(Lower(text), "\n" + marker);
    hide OccursAt;
    assert forall m | m < 0 || m > |text| :: !MarkerAt(text, marker, m) by {
      OutsideIsNoMarker(text, marker);
    }
    forall m | 0 < m <= |text|
      ensures MarkerAt(text, marker, m) <==> OccursAt(Lower(text), "\n" + marker, m - 1)
    {
      MarkerAfterFeed(text, marker, m);
    }
  }

  lemma OutsideIsNoMarker(text: string, marker: string)
    ensures forall m | m < 0 || m > |text| :: !MarkerAt(text, marker, m)
  {
  }

  /** `answer` follows the first marker of the list that has a place. */
  ghost predicate Follows(text: string, markers: seq<string>, answer: string) {
    exists k, i :: AnswerAt(text, markers, k, i) && i + |markers[k]| <= |text|
                   && answer == TrimStart(text[i + |markers[k]|..])
  }

  ghost predicate NoMarkerAt(text: string, markers: seq<string>) {
    forall k, m | 0 <= k < |markers| :: !MarkerAt(text, markers[k], m)
  }

  lemma {:induction false} FirstMarkedIsAnswer(text: string, markers: seq<string>)
    ensures
      match FirstMarked(text, Lower(text), markers)
      case None => NoMarkerAt(text, markers)
      case Some(answer) => Follows(text, markers, answer)
  {
    hide MarkerAt, AnswerAt, Lower, NoMarkerAt, Follows;
    NoMarkers(text);
    if markers != [] {
      AtFirstMarker(text, markers);
      if !StartsWith(Lower(text), markers[0]) && Find(Lower(text), "\n" + markers[0]).None? {
        FirstMarkedIsAnswer(text, markers[1..]);
        ShiftMarkers(text, markers, FirstMarked(text, Lower(text), markers[1..]));
      }
    }
  }

  lemma NoMarkers(text: string)
    ensures NoMarkerAt(text, [])
  {
  }

  lemma AtFirstMarker(text: string, markers: seq<string>)
    requires markers != []
    ensures StartsWith(Lower(text), markers[0]) ==> Follows(text, markers, TrimStart(text[|markers[0]|..]))
    ensures !StartsWith(Lower(text), markers[0]) ==>
              match Find(Lower(text), "\n" + markers[0])
              case None => forall m :: !MarkerAt(text, markers[0], m)
              case Some(i) => Follows(text, markers, TrimStart(text[i + |markers[0]| + 1..]))
  {
    hide Lower;
    assert Lower(text)[0..] == Lower(text);
    if StartsWith(Lower(text), markers[0]) {
      assert AnswerAt(text, markers, 0, 0);
    } else {
      MarkerOnLaterLine(text, markers[0]);
      var found := Find(Lower(text), "\n" + markers[0]);
      if found.Some? {
        assert AnswerAt(text, markers, 0, found.value + 1);
      }
    }
  }

  lemma ShiftMarkers(text: string, markers: seq<string>, found: Option<string>)
    requires markers != [] && forall m :: !MarkerAt(text, markers[0], m)
    ensures found.None? && NoMarkerAt(text, markers[1..]) ==> NoMarkerAt(text, markers)
    ensures found.Some? && Follows(text, markers[1..], found.value) ==> Follows(text, markers, found.value)
  {
    hide MarkerAt;
    if NoMarkerAt(text, markers[1..]) {
      forall k, m | 0 <= k < |markers|
        ensures !MarkerAt(text, markers[k], m)
      {
        assert k > 0 ==> markers[k] == markers[1..][k - 1];
      }
    }
    if found.Some? && Follows(text, markers[1..], found.value) {
      var k, i :| AnswerAt(text, markers[1..], k, i) && i + |markers[1..][k]| <= |text|
                  && found.value == TrimStart(text[i + |markers[1..][k]|..]);
      ShiftAnswer(text, markers, k, i);
    }
  }

  lemma ShiftAnswer(text: string, markers: seq<string>, k: int, i: int)
    requires markers != [] && AnswerAt(text, markers[1..], k, i) && forall m :: !MarkerAt(text, markers[0], m)
    ensures AnswerAt(text, markers, k + 1, i) && markers[k + 1] == markers[1..][k]
  {
    forall l, m | 0 <= l < k + 1
      ensures !MarkerAt(text, markers[l], m)
    {
      assert l > 0 ==> markers[l] == markers[1..][l - 1];
    }
  }

  /** What the text answers: what follows its marker, or all of it if it has none. */
  ghost predicate IsAnswer(text: string, answer: string) {
    (answer == text && NoMarkerAt(text, MARKERS)) || Follows(text, MARKERS, answer)
  }

  predicate SoundsLikeReasoning(answer: string) {
    exists i | 0 <= i < |REASONING_PREFIXES| :: OccursAt(Lower(answer), REASONING_PREFIXES[i], 0)
  }

  /** A text that begins with no reasoning block is judged by its answer: accepted as it is, unless it is empty or
      sounds like reasoning. */
  lemma AnswerIsJudged(text: string)
    requires Tidy(text) && text != [] && forall k | 0 <= k < |TAGS| :: !BeginsBlock(text, TAGS[k])
    ensures exists answer :: IsAnswer(text, answer)
              && SanitizeTaskResult(text)
                 == if answer == [] then Rejected(EMPTY_RESULT)
                    else if SoundsLikeReasoning(answer) then Rejected(REASONING_ONLY)
                    else Accepted(answer)
  {
    TidyIsTrimmed(text);
    FirstTagBegins(text, TAGS);
    FirstMarkedIsAnswer(text, MARKERS);
    assert StripBlocks(text) == Some(text);
    var extracted := ExtractMarkedFinalAnswer(text);
    var answer := if extracted.Some? then extracted.value else text;
    if extracted.Some? {
      ExtractedIsTidySuffix(text);
    }
    assert IsAnswer(text, answer);
    TidyIsTrimmed(answer);
    assert Lower(answer)[0..] == Lower(answer);
    JudgedByPrefix(answer);
  }

  lemma JudgedByPrefix(answer: string)
    requires Tidy(answer)
    ensures Judge(answer) == if answer == [] then Rejected(EMPTY_RESULT)
                             else if SoundsLikeReasoning(answer) then Rejected(REASONING_ONLY)
                             else Accepted(answer)
  {
    TidyIsTrimmed(answer);
    assert Lower(answer)[0..] == Lower(answer);
    if answer != [] && SoundsLikeReasoning(answer) {
      var i :| 0 <= i < |REASONING_PREFIXES| && OccursAt(Lower(answer), REASONING_PREFIXES[i], 0);
      assert StartsWith(Lower(answer), REASONING_PREFIXES[i]);
    }
    if answer != [] && LooksLikeReasoningOnly(answer) {
      var i :| 0 <= i < |REASONING_PREFIXES| && StartsWith(Lower(answer), REASONING_PREFIXES[i]);
      assert OccursAt(Lower(answer), REASONING_PREFIXES[i], 0);
    }
  }
}
