/**
 The user messages sent to the model: a list of tagged data blocks with escaped contents
 (`render_data_block` and its callers, src/agent/run.rs).
 */
module PromptBlocks {
  import opened Wrappers
  import opened Text

  datatype Block = Block(tag: string, content: string)

  // ---- Escaping ----

  function Replace(s: string, c: char, with: string): string {
    if s == [] then []
    else (if s[0] == c then with else [s[0]]) + Replace(s[1..], c, with)
  }

  function EscapePromptBlockContent(content: string): string {
    Replace(Replace(Replace(content, '&', "&amp;"), '<', "&lt;"), '>', "&gt;")
  }

  function EscapeChar(c: char): string {
    match c
    case '&' => "&amp;"
    case '<' => "&lt;"
    case '>' => "&gt;"
    case _ => [c]
  }

  function EscapeEach(s: string): string {
    if s == [] then [] else EscapeChar(s[0]) + EscapeEach(s[1..])
  }

  function Unescape(s: string): string {
    if s == [] then []
    else if StartsWith(s, "&amp;") then "&" + Unescape(s[5..])
    else if StartsWith(s, "&lt;") then "<" + Unescape(s[4..])
    else if StartsWith(s, "&gt;") then ">" + Unescape(s[4..])
    else [s[0]] + Unescape(s[1..])
  }

  lemma {:induction false} ReplaceConcat(a: string, b: string, c: char, with: string)
    ensures Replace(a + b, c, with) == Replace(a, c, with) + Replace(b, c, with)
  {
    if a == [] {
      assert a + b == b;
    } else {
      assert (a + b)[1..] == a[1..] + b;
      ReplaceConcat(a[1..], b, c, with);
    }
  }

  lemma {:induction false} ReplaceAbsent(s: string, c: char, with: string)
    requires c !in s
    ensures Replace(s, c, with) == s
  {
    if s != [] {
      ReplaceAbsent(s[1..], c, with);
    }
  }

  lemma ReplaceSingle(c: char, d: char, with: string)
    ensures Replace([c], d, with) == if c == d then with else [c]
  {
    assert [c][1..] == [];
  }

  lemma EscapeOne(c: char)
    ensures EscapePromptBlockContent([c]) == EscapeChar(c)
  {
    var amp, lt, gt := "&amp;", "&lt;", "&gt;";
    ReplaceSingle(c, '&', amp);
    ReplaceSingle(c, '<', lt);
    ReplaceSingle(c, '>', gt);
    ReplaceAbsent(amp, '<', lt);
    ReplaceAbsent(amp, '>', gt);
    ReplaceAbsent(lt, '>', gt);
  }

  /** The three replacements, one after the other, escape every character on its own. */
  lemma {:induction false} ReplacementsAreOnePass(s: string)
    ensures EscapePromptBlockContent(s) == EscapeEach(s)
  {
    if s != [] {
      var head, tail := [s[0]], s[1..];
      assert s == head + tail;
      ReplaceConcat(head, tail, '&', "&amp;");
      ReplaceConcat(Replace(head, '&', "&amp;"), Replace(tail, '&', "&amp;"), '<', "&lt;");
      ReplaceConcat(Replace(Replace(head, '&', "&amp;"), '<', "&lt;"),
                    Replace(Replace(tail, '&', "&amp;"), '<', "&lt;"), '>', "&gt;");
      EscapeOne(s[0]);
      ReplacementsAreOnePass(tail);
    }
  }

  lemma UnescapeOne(c: char, rest: string)
    ensures Unescape(EscapeChar(c) + rest) == [c] + Unescape(rest)
  {
    var s := EscapeChar(c) + rest;
    match c {
      case '&' => assert s[..5] == "&amp;" && s[5..] == rest;
      case '<' => assert s[..4] == "&lt;" && s[4..] == rest && s[1] == 'l';
      case '>' => assert s[..4] == "&gt;" && s[4..] == rest && s[1] == 'g';
      case _ => assert s[0] == c && s[1..] == rest;
    }
  }

  /** No content is lost: escaping has a left inverse. */
  lemma {:induction false} UnescapeEscape(s: string)
    ensures Unescape(EscapePromptBlockContent(s)) == s
  {
    ReplacementsAreOnePass(s);
    if s != [] {
      ReplacementsAreOnePass(s[1..]);
      UnescapeEscape(s[1..]);
      UnescapeOne(s[0], EscapeEach(s[1..]));
    }
  }

  lemma {:induction false} EscapedHasNoAngles(s: string)
    ensures '<' !in EscapeEach(s) && '>' !in EscapeEach(s)
  {
    if s != [] {
      EscapedHasNoAngles(s[1..]);
    }
  }

  // ---- Blocks ----

  function Body(content: string): string {
    "\n" + EscapePromptBlockContent(content) + "\n"
  }

  function CloseTag(tag: string): string {
    "</" + tag + ">"
  }

  function RenderDataBlock(tag: string, content: string): string {
    "<" + tag + ">" + Body(content) + CloseTag(tag)
  }

  const BLANK_LINE := "\n\n"

  /** The blocks joined by blank lines. */
  function Render(blocks: seq<Block>): string
    decreases |blocks|, 0
  {
    if blocks == [] then []
    else RenderDataBlock(blocks[0].tag, blocks[0].content) + Joined(blocks[1..])
  }

  function Joined(blocks: seq<Block>): string
    decreases |blocks|, 1
  {
    if blocks == [] then [] else BLANK_LINE + Render(blocks)
  }

  /** One push onto the list of blocks: an optional block is dropped when its content is blank. */
  datatype Slot = Required(tag: string, content: string) | Optional(tag: string, value: Option<string>) {
    function Shown(): seq<string> {
      match this
      case Required(_, content) => [content]
      case Optional(_, value) => if value.Some? && Trim(value.value) != [] then [value.value] else []
    }
  }

  function Blocks(slots: seq<Slot>): seq<Block> {
    if slots == [] then []
    else
      var shown := slots[0].Shown();
      (if shown == [] then [] else [Block(slots[0].tag, shown[0])]) + Blocks(slots[1..])
  }

  function JoinNonemptyLines(lines: seq<string>): Option<string> {
    if lines == [] then None else Some(JoinLines(lines))
  }

  function ExecutionSlots(
      contract: Option<string>, task: string, context: Option<string>, retryReason: Option<string>,
      toolTrace: seq<string>, note: Option<string>): seq<Slot>
  {
    [Required("task", task), Optional("deliverable_contract", contract), Optional("retrieved_context", context),
     Optional("retry_reason", retryReason), Optional("tool_trace", JoinNonemptyLines(toolTrace)),
     Optional("execution_recovery_note", note)]
  }

  function ReviewSlots(task: string, context: Option<string>, result: string, toolTrace: seq<string>): seq<Slot> {
    [Required("task", task), Optional("retrieved_context", context), Required("execution_result", result),
     Optional("tool_trace", JoinNonemptyLines(toolTrace))]
  }

  function RepairSlots(task: string, context: Option<string>, output: string, toolTrace: seq<string>): seq<Slot> {
    [Required("task", task), Optional("retrieved_context", context), Required("reviewer_output", output),
     Optional("tool_trace", JoinNonemptyLines(toolTrace))]
  }

  // ---- Reading a message back ----

  predicate TagOk(tag: string) {
    forall i | 0 <= i < |tag| :: tag[i] != '<' && tag[i] != '>'
  }

  /** The position of the first `c`, or the length. */
  function IndexOf(s: string, c: char): (i: nat)
    ensures i <= |s|
  {
    if s == [] || s[0] == c then 0 else 1 + IndexOf(s[1..], c)
  }

  lemma {:induction false} IndexAfter(s: string, c: char, i: nat)
    requires i < |s| && s[i] == c && c !in s[..i]
    ensures IndexOf(s, c) == i
  {
    if i > 0 {
      assert s[0] == s[..i][0];
      assert s[1..][..i - 1] == s[..i][1..];
      IndexAfter(s[1..], c, i - 1);
    }
  }

  /** The name in the tag a message starts with, and what follows the tag. */
  function ParseTag(s: string): Option<(string, string)> {
    if s == [] || s[0] != '<' then None
    else
      var i := IndexOf(s, '>');
      if i == |s| then None else Some((s[1..i], s[i + 1..]))
  }

  /** The text up to the next tag, between two line feeds, and what follows it. */
  function ParseBody(s: string): Option<(string, string)> {
    var i := IndexOf(s, '<');
    if i < 2 || s[0] != '\n' || s[i - 1] != '\n' then None else Some((Unescape(s[1..i - 1]), s[i..]))
  }

  /** The first block of a message, and what follows it. */
  function ParseBlock(s: string): (r: Option<(Block, string)>)
    ensures r.Some? ==> |r.value.1| < |s|
  {
    match ParseTag(s)
    case None => None
    case Some((tag, rest)) =>
      match ParseBody(rest)
      case None => None
      case Some((content, tail)) =>
        if StartsWith(tail, CloseTag(tag)) then Some((Block(tag, content), tail[|CloseTag(tag)|..])) else None
  }

  function Parse(s: string): Option<seq<Block>>
    decreases |s|
  {
    match ParseBlock(s)
    case None => None
    case Some((block, rest)) =>
      if rest == [] then Some([block])
      else if !StartsWith(rest, BLANK_LINE) then None
      else
        match Parse(rest[2..])
        case None => None
        case Some(blocks) => Some([block] + blocks)
  }

  lemma ParseOpenTag(tag: string, rest: string)
    requires TagOk(tag)
    ensures ParseTag("<" + tag + ">" + rest) == Some((tag, rest))
  {
    var s := "<" + tag + ">" + rest;
    assert s[..|tag| + 1] == "<" + tag;
    IndexAfter(s, '>', |tag| + 1);
    assert s[1..|tag| + 1] == tag && s[|tag| + 2..] == rest;
  }

  lemma ParseEscaped(content: string, rest: string)
    requires rest != [] && rest[0] == '<'
    ensures ParseBody(Body(content) + rest) == Some((content, rest))
  {
    var body, s := Body(content), Body(content) + rest;
    ReplacementsAreOnePass(content);
    EscapedHasNoAngles(content);
    UnescapeEscape(content);
    assert s[..|body|] == body;
    IndexAfter(s, '<', |body|);
    assert s[1..|body| - 1] == EscapePromptBlockContent(content) && s[|body|..] == rest;
  }

  lemma ParseRendered(block: Block, rest: string)
    requires TagOk(block.tag)
    ensures ParseBlock(RenderDataBlock(block.tag, block.content) + rest) == Some((block, rest))
  {
    var body, close := Body(block.content), CloseTag(block.tag);
    assert RenderDataBlock(block.tag, block.content) + rest == "<" + block.tag + ">" + (body + (close + rest));
    ParseOpenTag(block.tag, body + (close + rest));
    ParseEscaped(block.content, close + rest);
    assert (close + rest)[|close|..] == rest;
  }

  /** Every non-empty list of blocks is read back from its message, so no content of a block,
      whatever it contains, can imitate another block. */
  lemma {:induction false} MessagesParseBack(blocks: seq<Block>)
    requires blocks != [] && forall b | b in blocks :: TagOk(b.tag)
    ensures Parse(Render(blocks)) == Some(blocks)
  {
    hide ParseBlock, RenderDataBlock;
    var tail := Joined(blocks[1..]);
    ParseRendered(blocks[0], tail);
    assert blocks == [blocks[0]] + blocks[1..];
    assert Render(blocks) == RenderDataBlock(blocks[0].tag, blocks[0].content) + tail;
    ParseStep(Render(blocks), Block(blocks[0].tag, blocks[0].content), tail);
    if |blocks| == 1 {
      assert blocks == [blocks[0]] && tail == [];
    } else {
      MessagesParseBack(blocks[1..]);
      assert tail[2..] == Render(blocks[1..]) && tail[..2] == BLANK_LINE;
    }
  }

  /** After the first block the message is over, or a blank line and the other blocks follow. */
  lemma ParseStep(s: string, block: Block, tail: string)
    requires ParseBlock(s) == Some((block, tail))
    ensures tail == [] ==> Parse(s) == Some([block])
    ensures StartsWith(tail, BLANK_LINE) && Parse(tail[2..]).Some? ==>
              Parse(s) == Some([block] + Parse(tail[2..]).value)
  {
    hide ParseBlock;
  }

  /** The contents of the blocks that carry a tag. */
  function Contents(blocks: seq<Block>, tag: string): seq<string> {
    if blocks == [] then []
    else (if blocks[0].tag == tag then [blocks[0].content] else []) + Contents(blocks[1..], tag)
  }

  predicate DistinctTags(slots: seq<Slot>) {
    forall i, j | 0 <= i < j < |slots| :: slots[i].tag != slots[j].tag
  }

  predicate WellFormed(slots: seq<Slot>) {
    && slots != [] && slots[0].Required? && DistinctTags(slots)
    && (forall s | s in slots :: TagOk(s.tag))
  }

  lemma {:induction false} AbsentTagHasNoContents(slots: seq<Slot>, tag: string)
    requires forall i | 0 <= i < |slots| :: slots[i].tag != tag
    ensures Contents(Blocks(slots), tag) == []
  {
    if slots != [] {
      AbsentTagHasNoContents(slots[1..], tag);
      ContentsAfterFirst(slots, tag);
    }
  }

  lemma ContentsAfterFirst(slots: seq<Slot>, tag: string)
    requires slots != []
    ensures Contents(Blocks(slots), tag)
         == (if slots[0].tag == tag then slots[0].Shown() else []) + Contents(Blocks(slots[1..]), tag)
  {
    var rest := Blocks(slots[1..]);
    if slots[0].Shown() == [] {
      assert Blocks(slots) == rest;
    } else {
      assert Blocks(slots)[1..] == rest;
    }
  }

  lemma {:induction false} ContentsAreShown(slots: seq<Slot>, k: nat)
    requires k < |slots| && DistinctTags(slots)
    ensures Contents(Blocks(slots), slots[k].tag) == slots[k].Shown()
  {
    ContentsAfterFirst(slots, slots[k].tag);
    if k == 0 {
      AbsentTagHasNoContents(slots[1..], slots[0].tag);
    } else {
      ContentsAreShown(slots[1..], k - 1);
    }
  }

  lemma {:induction false} BlocksKeepTags(slots: seq<Slot>)
    requires forall s | s in slots :: TagOk(s.tag)
    ensures forall b | b in Blocks(slots) :: TagOk(b.tag)
  {
    if slots != [] {
      BlocksKeepTags(slots[1..]);
    }
  }

  /** A message made from slots that start with a required one is read back to exactly the contents
      given: every required slot, and every optional slot that is not blank. */
  lemma MessageShowsItsSlots(slots: seq<Slot>, k: nat)
    requires WellFormed(slots) && k < |slots|
    ensures Parse(Render(Blocks(slots))) == Some(Blocks(slots))
    ensures Contents(Blocks(slots), slots[k].tag) == slots[k].Shown()
  {
    BlocksKeepTags(slots);
    MessagesParseBack(Blocks(slots));
    ContentsAreShown(slots, k);
  }

  lemma TagsAreOk()
    ensures TagOk("task") && TagOk("deliverable_contract") && TagOk("retrieved_context") && TagOk("retry_reason")
    ensures TagOk("tool_trace") && TagOk("execution_recovery_note") && TagOk("execution_result")
    ensures TagOk("reviewer_output")
  {
  }

  /** Tags of different lengths are distinct. */
  lemma DistinctByLength(slots: seq<Slot>)
    requires forall i, j | 0 <= i < j < |slots| :: |slots[i].tag| != |slots[j].tag|
    ensures DistinctTags(slots)
  {
  }

  /** The three messages of a run are of that form. */
  lemma ExecutionMessageIsWellFormed(
      contract: Option<string>, task: string, context: Option<string>, retryReason: Option<string>,
      toolTrace: seq<string>, note: Option<string>)
    ensures WellFormed(ExecutionSlots(contract, task, context, retryReason, toolTrace, note))
  {
    TagsAreOk();
    DistinctByLength(ExecutionSlots(contract, task, context, retryReason, toolTrace, note));
  }

  lemma ReviewMessagesAreWellFormed(
      task: string, context: Option<string>, text: string, toolTrace: seq<string>)
    ensures WellFormed(ReviewSlots(task, context, text, toolTrace))
    ensures WellFormed(RepairSlots(task, context, text, toolTrace))
  {
    TagsAreOk();
    DistinctByLength(ReviewSlots(task, context, text, toolTrace));
    DistinctByLength(RepairSlots(task, context, text, toolTrace));
  }

  /** Two messages built from the same tags are equal only if they show the same contents. */
  lemma EqualMessagesShowTheSame(a: seq<Slot>, b: seq<Slot>, k: nat)
    requires WellFormed(a) && WellFormed(b) && |a| == |b| && k < |a| && a[k].tag == b[k].tag
    requires Render(Blocks(a)) == Render(Blocks(b))
    ensures a[k].Shown() == b[k].Shown()
  {
    MessageShowsItsSlots(a, k);
    MessageShowsItsSlots(b, k);
  }

  // ---- What the messages of a run say ----

  /** An optional value is shown as it is, unless all of it is white space. */
  function IfNotBlank(value: Option<string>): seq<string> {
    if value.Some? && exists i | 0 <= i < |value.value| :: !IsSpace(value.value[i]) then [value.value] else []
  }

  /** An empty tool trace is not shown, and any other can be read off line by line. */
  lemma ToolTraceIsTold(lines: seq<string>)
    requires forall l | l in lines :: '\n' !in l
    ensures
      match JoinNonemptyLines(lines)
      case None => lines == []
      case Some(text) => lines != [] && SplitLines(text) == lines
  {
    if lines != [] {
      JoinedLinesSplit(lines);
    }
  }

  lemma ShownIfNotBlank(tag: string, value: Option<string>)
    ensures Optional(tag, value).Shown() == IfNotBlank(value)
  {
    if value.Some? {
      BlankIsTrimmedAway(value.value);
    }
  }

  lemma {:induction false} BlocksComeFromSlots(slots: seq<Slot>, b: Block)
    requires b in Blocks(slots)
    ensures exists s :: s in slots && s.tag == b.tag && s.Shown() == [b.content]
  {
    var shown := slots[0].Shown();
    if shown == [] || b != Block(slots[0].tag, shown[0]) {
      BlocksComeFromSlots(slots[1..], b);
    } else {
      assert slots[0] in slots && shown == [b.content];
    }
  }

  /** Read back, the message of an execution says the task and whatever is given of the rest, each under its tag. */
  lemma ExecutionMessageSays(
      contract: Option<string>, task: string, context: Option<string>, retryReason: Option<string>,
      toolTrace: seq<string>, note: Option<string>) returns (blocks: seq<Block>)
    ensures Parse(Render(Blocks(ExecutionSlots(contract, task, context, retryReason, toolTrace, note)))) == Some(blocks)
    ensures blocks != [] && blocks[0] == Block("task", task) && Contents(blocks, "task") == [task]
    ensures Contents(blocks, "deliverable_contract") == IfNotBlank(contract)
    ensures Contents(blocks, "retrieved_context") == IfNotBlank(context)
    ensures Contents(blocks, "retry_reason") == IfNotBlank(retryReason)
    ensures Contents(blocks, "tool_trace") == IfNotBlank(JoinNonemptyLines(toolTrace))
    ensures Contents(blocks, "execution_recovery_note") == IfNotBlank(note)
    ensures forall b | b in blocks ::
              b.tag in {"task", "deliverable_contract", "retrieved_context", "retry_reason", "tool_trace",
                        "execution_recovery_note"}
  {
    var slots := ExecutionSlots(contract, task, context, retryReason, toolTrace, note);
    blocks := Blocks(slots);
    ExecutionMessageIsWellFormed(contract, task, context, retryReason, toolTrace, note);
    ShownIfNotBlank("deliverable_contract", contract);
    ShownIfNotBlank("retrieved_context", context);
    ShownIfNotBlank("retry_reason", retryReason);
    ShownIfNotBlank("tool_trace", JoinNonemptyLines(toolTrace));
    ShownIfNotBlank("execution_recovery_note", note);
    hide Blocks, WellFormed, Contents, Parse, Render;
    MessageShowsItsSlots(slots, 0);
    MessageShowsItsSlots(slots, 1);
    MessageShowsItsSlots(slots, 2);
    MessageShowsItsSlots(slots, 3);
    MessageShowsItsSlots(slots, 4);
    MessageShowsItsSlots(slots, 5);
    FirstBlock(slots);
    forall b | b in blocks
      ensures exists s :: s in slots && s.tag == b.tag
    {
      BlocksComeFromSlots(slots, b);
    }
  }

  lemma FirstBlock(slots: seq<Slot>)
    requires slots != [] && slots[0].Required?
    ensures Blocks(slots) != [] && Blocks(slots)[0] == Block(slots[0].tag, slots[0].content)
  {
  }

  /** So do the messages of a review, which also says what is reviewed, and of a repair, which says what was
      answered. */
  lemma ReviewMessageSays(task: string, context: Option<string>, result: string, toolTrace: seq<string>)
    returns (blocks: seq<Block>)
    ensures Parse(Render(Blocks(ReviewSlots(task, context, result, toolTrace)))) == Some(blocks)
    ensures blocks != [] && blocks[0] == Block("task", task) && Contents(blocks, "task") == [task]
    ensures Contents(blocks, "retrieved_context") == IfNotBlank(context)
    ensures Contents(blocks, "execution_result") == [result]
    ensures Contents(blocks, "tool_trace") == IfNotBlank(JoinNonemptyLines(toolTrace))
    ensures forall b | b in blocks :: b.tag in {"task", "retrieved_context", "execution_result", "tool_trace"}
  {
    var slots := ReviewSlots(task, context, result, toolTrace);
    blocks := Blocks(slots);
    ReviewMessagesAreWellFormed(task, context, result, toolTrace);
    ShownIfNotBlank("retrieved_context", context);
    ShownIfNotBlank("tool_trace", JoinNonemptyLines(toolTrace));
    hide Blocks, WellFormed, Contents, Parse, Render;
    MessageShowsItsSlots(slots, 0);
    MessageShowsItsSlots(slots, 1);
    MessageShowsItsSlots(slots, 2);
    MessageShowsItsSlots(slots, 3);
    FirstBlock(slots);
    forall b | b in blocks
      ensures exists s :: s in slots && s.tag == b.tag
    {
      BlocksComeFromSlots(slots, b);
    }
  }

  lemma RepairMessageSays(task: string, context: Option<string>, output: string, toolTrace: seq<string>)
    returns (blocks: seq<Block>)
    ensures Parse(Render(Blocks(RepairSlots(task, context, output, toolTrace)))) == Some(blocks)
    ensures blocks != [] && blocks[0] == Block("task", task) && Contents(blocks, "task") == [task]
    ensures Contents(blocks, "retrieved_context") == IfNotBlank(context)
    ensures Contents(blocks, "reviewer_output") == [output]
    ensures Contents(blocks, "tool_trace") == IfNotBlank(JoinNonemptyLines(toolTrace))
    ensures forall b | b in blocks :: b.tag in {"task", "retrieved_context", "reviewer_output", "tool_trace"}
  {
    var slots := RepairSlots(task, context, output, toolTrace);
    blocks := Blocks(slots);
    ReviewMessagesAreWellFormed(task, context, output, toolTrace);
    ShownIfNotBlank("retrieved_context", context);
    ShownIfNotBlank("tool_trace", JoinNonemptyLines(toolTrace));
    hide Blocks, WellFormed, Contents, Parse, Render;
    MessageShowsItsSlots(slots, 0);
    MessageShowsItsSlots(slots, 1);
    MessageShowsItsSlots(slots, 2);
    MessageShowsItsSlots(slots, 3);
    FirstBlock(slots);
    forall b | b in blocks
      ensures exists s :: s in slots && s.tag == b.tag
    {
      BlocksComeFromSlots(slots, b);
    }
  }

  /** The message of one execution: after an attempt was sent back it is a repair message with the reason. */
  function RequestSlots(
      contract: Option<string>, task: string, context: Option<string>, reason: Option<string>,
      toolTrace: seq<string>, note: Option<string>): seq<Slot>
  {
    match reason
    case Some(why) => RepairSlots(task, context, why, toolTrace)
    case None => ExecutionSlots(contract, task, context, None, toolTrace, note)
  }

  /** Every execution is told the task and the tool trace; an attempt after one that was sent back is told why, and
      the others the contract and the note. */
  lemma RequestSays(
      contract: Option<string>, task: string, context: Option<string>, reason: Option<string>,
      toolTrace: seq<string>, note: Option<string>) returns (blocks: seq<Block>)
    ensures Parse(Render(Blocks(RequestSlots(contract, task, context, reason, toolTrace, note)))) == Some(blocks)
    ensures Contents(blocks, "task") == [task] && Contents(blocks, "retrieved_context") == IfNotBlank(context)
    ensures Contents(blocks, "tool_trace") == IfNotBlank(JoinNonemptyLines(toolTrace))
    ensures reason.Some? ==> Contents(blocks, "reviewer_output") == [reason.value]
    ensures reason.None? ==>
              && Contents(blocks, "deliverable_contract") == IfNotBlank(contract)
              && Contents(blocks, "execution_recovery_note") == IfNotBlank(note)
              && Contents(blocks, "retry_reason") == []
  {
    hide Blocks, Contents, Parse, Render;
    if reason.Some? {
      blocks := RepairMessageSays(task, context, reason.value, toolTrace);
    } else {
      blocks := ExecutionMessageSays(contract, task, context, None, toolTrace, note);
    }
  }
}
