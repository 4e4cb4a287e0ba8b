/**
 The scanner that finds a JSON object inside the free text of a review
 (`extract_embedded_json_object`, src/agent/run.rs), against the grammar of RFC 8259.
 */
module JsonScanner {
  import opened Wrappers

  /** Where the scan of a candidate stands between two characters. */
  datatype Mode = Mode(depth: nat, inString: bool, escaped: bool)

  function Outside(depth: nat): Mode {
    Mode(depth, false, false)
  }

  /** The mode after one more character, or none when it is the brace that brings the depth back to
      zero. Braces inside strings do not count; a backslash hides the next character of a string. */
  function Step(m: Mode, c: char): Option<Mode> {
    if m.inString then
      if m.escaped then Some(m.(escaped := false))
      else if c == '\\' then Some(m.(escaped := true))
      else if c == '"' then Some(m.(inString := false))
      else Some(m)
    else if c == '"' then Some(m.(inString := true))
    else if c == '{' then Some(m.(depth := m.depth + 1))
    else if c == '}' then if m.depth <= 1 then None else Some(m.(depth := m.depth - 1))
    else Some(m)
  }

  /** How many characters a scan takes, up to the brace that ends it. */
  function ScanFrom(s: seq<char>, m: Mode): (r: Option<nat>)
    ensures r.Some? ==> 0 < r.value <= |s|
  {
    if s == [] then None
    else
      match Step(m, s[0])
      case None => Some(1)
      case Some(m') => Later(1, ScanFrom(s[1..], m'))
  }

  function Later(n: nat, r: Option<nat>): Option<nat> {
    match r
    case None => None
    case Some(k) => Some(n + k)
  }

  /** Position `start` opens an object whose braces balance. */
  predicate Balanced(text: seq<char>, start: nat) {
    start < |text| && text[start] == '{' && ScanFrom(text[start..], Outside(0)).Some?
  }

  function ObjectAt(text: seq<char>, start: nat): seq<char>
    requires Balanced(text, start)
  {
    text[start..start + ScanFrom(text[start..], Outside(0)).value]
  }

  /** `r` is the text from the first balanced opening brace on, if there is one. */
  ghost predicate FirstObject(text: seq<char>, r: Option<seq<char>>) {
    match r
    case None => forall k: nat :: !Balanced(text, k)
    case Some(found) =>
      exists start: nat :: Balanced(text, start) && found == ObjectAt(text, start)
                           && forall k: nat | k < start :: !Balanced(text, k)
  }

  /** The first balanced object from position `start` on. */
  function EmbeddedObject(text: seq<char>, start: nat): Option<seq<char>>
    decreases |text| - start
  {
    if start >= |text| then None
    else if Balanced(text, start) then Some(ObjectAt(text, start))
    else EmbeddedObject(text, start + 1)
  }

  lemma {:induction false} EmbeddedObjectIsFirst(text: seq<char>, start: nat)
    requires start <= |text| && forall k: nat | k < start :: !Balanced(text, k)
    ensures FirstObject(text, EmbeddedObject(text, start))
    decreases |text| - start
  {
    if start < |text| && !Balanced(text, start) {
      EmbeddedObjectIsFirst(text, start + 1);
    }
  }

  method ExtractEmbeddedJsonObject(text: seq<char>) returns (r: Option<seq<char>>)
    ensures FirstObject(text, r) && r == EmbeddedObject(text, 0)
  {
    for start := 0 to |text|
      invariant forall k: nat | k < start :: !Balanced(text, k)
      invariant EmbeddedObject(text, 0) == EmbeddedObject(text, start)
    {
      if text[start] != '{' {
        continue;
      }
      var length := MatchBraces(text[start..]);
      if length.Some? {
        assert Balanced(text, start);
        return Some(text[start..start + length.value]);
      }
    }
    return None;
  }

  /** The inner loop of the source. */
  method MatchBraces(candidate: seq<char>) returns (length: Option<nat>)
    ensures length == ScanFrom(candidate, Outside(0))
  {
    var depth: nat := 0;
    var inString, escaped := false, false;
    assert candidate[0..] == candidate;
    for offset := 0 to |candidate|
      invariant escaped ==> inString
      invariant ScanFrom(candidate, Outside(0))
                == Later(offset, ScanFrom(candidate[offset..], Mode(depth, inString, escaped)))
    {
      var current := candidate[offset];
      assert candidate[offset..][1..] == candidate[offset + 1..];
      if inString {
        if escaped {
          escaped := false;
          continue;
        }
        match current {
          case '\\' => escaped := true;
          case '"' => inString := false;
          case _ =>
        }
        continue;
      }
      match current {
        case '"' => inString := true;
        case '{' => depth := depth + 1;
        case '}' =>
          depth := if depth == 0 then 0 else depth - 1;
          if depth == 0 {
            return Some(offset + 1);
          }
        case _ =>
      }
    }
    return None;
  }

  // ---- JSON texts ----

  /** One character of a JSON string (section 7 of RFC 8259), or a backslash and the character it
      escapes; the four digits after an escaped 'u' are ordinary characters. */
  datatype Item = Unescaped(c: char) | Escaped(c: char)

  /** A value as it is spelled out, with the white space around the structural characters. */
  datatype Json =
    | Scalar(text: seq<char>)  // a literal name or a number
    | Text(items: seq<Item>)
    | Array(space: seq<char>, elements: seq<Element>)
    | Object(space: seq<char>, members: seq<Member>)

  datatype Element = Element(before: seq<char>, value: Json, after: seq<char>)

  datatype Member = Member(
    before: seq<char>, key: seq<Item>, beforeColon: seq<char>, afterColon: seq<char>, value: Json, after: seq<char>)

  predicate Neutral(s: seq<char>) {
    forall i | 0 <= i < |s| :: s[i] != '"' && s[i] != '{' && s[i] != '}'
  }

  predicate ItemOk(item: Item) {
    item.Unescaped? ==> item.c != '"' && item.c != '\\'
  }

  predicate ItemsOk(items: seq<Item>) {
    forall i | 0 <= i < |items| :: ItemOk(items[i])
  }

  predicate Ok(v: Json)
    decreases v, 1
  {
    match v
    case Scalar(text) => Neutral(text)
    case Text(items) => ItemsOk(items)
    case Array(space, elements) => Neutral(space) && ElementsOk(elements)
    case Object(space, members) => Neutral(space) && MembersOk(members)
  }

  predicate ElementsOk(elements: seq<Element>)
    decreases elements, 0
  {
    elements == [] ||
    (Neutral(elements[0].before) && Ok(elements[0].value) && Neutral(elements[0].after) && ElementsOk(elements[1..]))
  }

  predicate MembersOk(members: seq<Member>)
    decreases members, 0
  {
    members == [] ||
    var m := members[0];
    && Neutral(m.before) && ItemsOk(m.key) && Neutral(m.beforeColon) && Neutral(m.afterColon)
    && Ok(m.value) && Neutral(m.after) && MembersOk(members[1..])
  }

  function PrintItems(items: seq<Item>): seq<char> {
    if items == [] then []
    else (if items[0].Unescaped? then [items[0].c] else ['\\', items[0].c]) + PrintItems(items[1..])
  }

  function PrintString(items: seq<Item>): seq<char> {
    ['"'] + PrintItems(items) + ['"']
  }

  function Print(v: Json): seq<char>
    decreases v, 1
  {
    match v
    case Scalar(text) => text
    case Text(items) => PrintString(items)
    case Array(space, elements) => ['['] + space + PrintElements(elements) + [']']
    case Object(space, members) => ['{'] + space + PrintMembers(members) + ['}']
  }

  function PrintElements(elements: seq<Element>): seq<char>
    decreases elements, 0
  {
    if elements == [] then []
    else
      elements[0].before + Print(elements[0].value) + elements[0].after
      + (if |elements| == 1 then [] else [',']) + PrintElements(elements[1..])
  }

  function PrintMembers(members: seq<Member>): seq<char>
    decreases members, 0
  {
    if members == [] then []
    else
      var m := members[0];
      m.before + PrintString(m.key) + m.beforeColon + [':'] + m.afterColon + Print(m.value) + m.after
      + (if |members| == 1 then [] else [',']) + PrintMembers(members[1..])
  }

  // ---- Scanning a JSON text ----

  /** The mode after a piece of text, unless the scan ends within it. */
  function Run(s: seq<char>, m: Mode): Option<Mode> {
    if s == [] then Some(m)
    else
      match Step(m, s[0])
      case None => None
      case Some(m') => Run(s[1..], m')
  }

  lemma {:induction false} RunConcat(a: seq<char>, b: seq<char>, m: Mode)
    requires Run(a, m).Some?
    ensures Run(a + b, m) == Run(b, Run(a, m).value)
  {
    if a == [] {
      assert a + b == b;
    } else {
      assert (a + b)[1..] == a[1..] + b;
      RunConcat(a[1..], b, Step(m, a[0]).value);
    }
  }

  lemma {:induction false} ScanAfterRun(a: seq<char>, rest: seq<char>, m: Mode)
    requires Run(a, m).Some?
    ensures ScanFrom(a + rest, m) == Later(|a|, ScanFrom(rest, Run(a, m).value))
  {
    if a == [] {
      assert a + rest == rest;
    } else {
      assert (a + rest)[1..] == a[1..] + rest;
      ScanAfterRun(a[1..], rest, Step(m, a[0]).value);
    }
  }

  /** Scanning the piece outside of strings leaves the depth as it was. */
  predicate Keeps(s: seq<char>, depth: nat) {
    Run(s, Outside(depth)) == Some(Outside(depth))
  }

  lemma KeepsConcat(a: seq<char>, b: seq<char>, depth: nat)
    requires Keeps(a, depth) && Keeps(b, depth)
    ensures Keeps(a + b, depth)
  {
    RunConcat(a, b, Outside(depth));
  }

  lemma {:induction false} NeutralKeeps(s: seq<char>, depth: nat)
    requires Neutral(s)
    ensures Keeps(s, depth)
  {
    if s != [] {
      NeutralKeeps(s[1..], depth);
    }
  }

  lemma {:induction false} ItemsStayInside(items: seq<Item>, depth: nat)
    requires ItemsOk(items)
    ensures Run(PrintItems(items), Mode(depth, true, false)) == Some(Mode(depth, true, false))
  {
    if items != [] {
      var inside := Mode(depth, true, false);
      var first := if items[0].Unescaped? then [items[0].c] else ['\\', items[0].c];
      assert ItemOk(items[0]);
      OneItemStaysInside(items[0], inside);
      ItemsStayInside(items[1..], depth);
      RunConcat(first, PrintItems(items[1..]), inside);
    }
  }

  lemma OneItemStaysInside(item: Item, inside: Mode)
    requires ItemOk(item) && inside.inString && !inside.escaped
    ensures Run(if item.Unescaped? then [item.c] else ['\\', item.c], inside) == Some(inside)
  {
    if item.Escaped? {
      RunConcat(['\\'], [item.c], inside);
      assert ['\\'] + [item.c] == ['\\', item.c];
    }
  }

  lemma StringKeeps(items: seq<Item>, depth: nat)
    requires ItemsOk(items)
    ensures Keeps(PrintString(items), depth)
  {
    var inside := Mode(depth, true, false);
    ItemsStayInside(items, depth);
    RunConcat(PrintItems(items), ['"'], inside);
    RunConcat(['"'], PrintItems(items) + ['"'], Outside(depth));
    assert PrintString(items) == ['"'] + (PrintItems(items) + ['"']);
  }

  lemma BracesKeep(inner: seq<char>, depth: nat)
    requires depth >= 1 && Keeps(inner, depth + 1)
    ensures Keeps(['{'] + inner + ['}'], depth)
  {
    RunConcat(inner, ['}'], Outside(depth + 1));
    RunConcat(['{'], inner + ['}'], Outside(depth));
    assert ['{'] + inner + ['}'] == ['{'] + (inner + ['}']);
  }

  lemma {:induction false} ValueKeeps(v: Json, depth: nat)
    requires Ok(v) && depth >= 1
    ensures Keeps(Print(v), depth)
    decreases v, 1
  {
    match v {
      case Scalar(text) => NeutralKeeps(text, depth);
      case Text(items) => StringKeeps(items, depth);
      case Array(space, elements) =>
        NeutralKeeps(['['] + space, depth);
        ElementsKeep(elements, depth);
        KeepsConcat(['['] + space, PrintElements(elements), depth);
        NeutralKeeps([']'], depth);
        KeepsConcat(['['] + space + PrintElements(elements), [']'], depth);
      case Object(space, members) =>
        MembersKeep(members, depth + 1);
        NeutralKeeps(space, depth + 1);
        KeepsConcat(space, PrintMembers(members), depth + 1);
        BracesKeep(space + PrintMembers(members), depth);
        assert Print(v) == ['{'] + (space + PrintMembers(members)) + ['}'];
    }
  }

  lemma {:induction false} ElementsKeep(elements: seq<Element>, depth: nat)
    requires ElementsOk(elements) && depth >= 1
    ensures Keeps(PrintElements(elements), depth)
    decreases elements, 0
  {
    if elements != [] {
      var e, comma := elements[0], if |elements| == 1 then [] else [','];
      NeutralKeeps(e.before, depth);
      ValueKeeps(e.value, depth);
      NeutralKeeps(e.after, depth);
      NeutralKeeps(comma, depth);
      ElementsKeep(elements[1..], depth);
      KeepsConcat(e.before, Print(e.value), depth);
      KeepsConcat(e.before + Print(e.value), e.after, depth);
      KeepsConcat(e.before + Print(e.value) + e.after, comma, depth);
      KeepsConcat(e.before + Print(e.value) + e.after + comma, PrintElements(elements[1..]), depth);
    }
  }

  lemma {:induction false} MembersKeep(members: seq<Member>, depth: nat)
    requires MembersOk(members) && depth >= 1
    ensures Keeps(PrintMembers(members), depth)
    decreases members, 0
  {
    if members != [] {
      var m, comma := members[0], if |members| == 1 then [] else [','];
      NeutralKeeps(m.before, depth);
      StringKeeps(m.key, depth);
      NeutralKeeps(m.beforeColon, depth);
      NeutralKeeps([':'], depth);
      NeutralKeeps(m.afterColon, depth);
      ValueKeeps(m.value, depth);
      NeutralKeeps(m.after, depth);
      NeutralKeeps(comma, depth);
      MembersKeep(members[1..], depth);
      var s := m.before;
      s := Joined(s, PrintString(m.key), depth);
      s := Joined(s, m.beforeColon, depth);
      s := Joined(s, [':'], depth);
      s := Joined(s, m.afterColon, depth);
      s := Joined(s, Print(m.value), depth);
      s := Joined(s, m.after, depth);
      s := Joined(s, comma, depth);
      s := Joined(s, PrintMembers(members[1..]), depth);
    }
  }

  lemma Joined(a: seq<char>, b: seq<char>, depth: nat) returns (s: seq<char>)
    requires Keeps(a, depth) && Keeps(b, depth)
    ensures s == a + b && Keeps(s, depth)
  {
    s := a + b;
    KeepsConcat(a, b, depth);
  }

  lemma ScanObject(v: Json, suffix: seq<char>)
    requires Ok(v) && v.Object?
    ensures ScanFrom(Print(v) + suffix, Outside(0)) == Some(|Print(v)|)
  {
    var body := v.space + PrintMembers(v.members);
    MembersKeep(v.members, 1);
    NeutralKeeps(v.space, 1);
    KeepsConcat(v.space, PrintMembers(v.members), 1);
    RunConcat(['{'], body, Outside(0));
    assert Run(['{'] + body, Outside(0)) == Some(Outside(1));
    assert ScanFrom(['}'] + suffix, Outside(1)) == Some(1);
    ScanAfterRun(['{'] + body, ['}'] + suffix, Outside(0));
    assert Print(v) == ['{'] + body + ['}'];
    assert Print(v) + suffix == ['{'] + body + (['}'] + suffix);
  }

  /**
   For every JSON object, however it is spelled out, after any text without an opening brace and
   before any text at all, the scanner finds exactly the object.
   */
  lemma EmbeddedObjectIsFound(prefix: seq<char>, v: Json, suffix: seq<char>, r: Option<seq<char>>)
    requires Ok(v) && v.Object? && '{' !in prefix
    requires FirstObject(prefix + Print(v) + suffix, r)
    ensures r == Some(Print(v))
  {
    var text, start := prefix + Print(v) + suffix, |prefix|;
    ScanObject(v, suffix);
    assert text[start..] == Print(v) + suffix;
    assert text[start] == '{';
    assert Balanced(text, start) && ObjectAt(text, start) == Print(v);
    forall k: nat | k < start
      ensures !Balanced(text, k)
    {
      assert text[k] == prefix[k];
    }
  }
}
