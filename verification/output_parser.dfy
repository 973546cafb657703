/**
 * The agent-output classifier of backend/output_parser.py: `Parse` turns one agent
 * response into the ordered list of typed UI items (code, text, error, image,
 * highlight_room, arrow) using the scanners of module `Scanner`.
 */
module OutputParser {
  import opened Basics
  import opened Strings
  import opened Scanner

  /** The four arrow directions; an arrow item always carries one of them. */
  datatype Direction = Up | Down | Left | Right {
    /** The lower-case word the item's `direction` field holds. */
    function Name(): string {
      match this
      case Up => "up"
      case Down => "down"
      case Left => "left"
      case Right => "right"
    }
  }

  /** Where a code item came from: a numbered agent step, the output text, or the logs. */
  datatype CodeOrigin = AgentStep(stepLabel: string) | OutputText | Logs

  /** One classified UI item. */
  datatype OutputItem =
    | Code(content: string, language: string, origin: CodeOrigin)
    | Text(content: string)
    | Error(content: string)
    | Image(content: string, format: string, path: Option<string>)
    | HighlightRoom(rooms: seq<string>)
    | Arrow(room: string, direction: Direction)

  /** One entry of `code_steps`; either key may be missing from the dictionary. */
  datatype CodeStep = CodeStep(code: Option<string>, step: Option<string>)

  /** One entry of `logs`: a plain string, or the step record the agent wrapper stores. */
  datatype LogEntry = LogLine(line: string) | StepRecord(stepNumber: int, toolCalls: seq<string>)

  /**
   * The response dictionary. A missing `text` or `raw_output` reads as `""`, a missing
   * or empty `code_steps` or `logs` as `[]`, and `error` is its truth value.
   */
  datatype AgentResponse = AgentResponse(
    text: string,
    rawOutput: string,
    error: bool,
    codeSteps: seq<CodeStep>,
    logs: seq<LogEntry>)

  /**
   * The file system as the image scan sees it: whether a path exists, and the base64
   * text of the file's bytes, or `None` when opening or reading it fails.
   */
  datatype ImageStore = ImageStore(pathExists: string -> bool, readBase64: string -> Option<string>)

  /** The room vocabulary highlighted when the answer mentions a room. */
  const RoomNames: seq<string> := ["Room1", "Room2", "Bathroom", "Kitchen", "Toilet", "Level1", "Level2"]

  /** The image extension table of the parser, with their dots. */
  const ImageExtensions: seq<string> := [".png", ".jpg", ".jpeg", ".gif", ".bmp", ".svg"]

  /** The extension table is the path pattern's extension words, each with its dot. */
  lemma ImageExtensionsMatchPattern()
    ensures |ImageExtensions| == |ImageExtensionWords|
    ensures forall k :: 0 <= k < |ImageExtensions| ==> ImageExtensions[k] == "." + ImageExtensionWords[k]
  {
  }

  // ---------------------------------------------------------------- code blocks

  /** The label a code step gets when it has none: `Step <its 1-based position>`. */
  function DefaultStepLabel(i: nat): string {
    "Step " + NatToDecimal(i + 1)
  }

  /** The default label of the step at index `i` reads back as the number `i + 1`. */
  lemma DefaultStepLabelNumbersFromOne(i: nat)
    ensures |DefaultStepLabel(i)| > 5 && DefaultStepLabel(i)[..5] == "Step "
    ensures forall k :: 5 <= k < |DefaultStepLabel(i)| ==> IsDigit(DefaultStepLabel(i)[k])
    ensures DecimalValue(DefaultStepLabel(i)[5..]) == i + 1
  {
    assert DefaultStepLabel(i)[5..] == NatToDecimal(i + 1);
    DecimalRoundTrip(i + 1);
  }

  /** One python code item per step, in step order, labelled by the step or its position. */
  function StepItems(steps: seq<CodeStep>): (r: seq<OutputItem>)
    ensures |r| == |steps|
    ensures forall k :: 0 <= k < |r| ==> r[k].Code? && r[k].language == "python"
    ensures forall k :: 0 <= k < |r| ==> r[k].content == steps[k].code.GetOr("")
    ensures forall k :: 0 <= k < |r| ==> r[k].origin == AgentStep(steps[k].step.GetOr(DefaultStepLabel(k)))
  {
    seq(|steps|, k requires 0 <= k < |steps| =>
      Code(steps[k].code.GetOr(""), "python", AgentStep(steps[k].step.GetOr(DefaultStepLabel(k)))))
  }

  /** Every item is a code item. */
  predicate AllCode(items: seq<OutputItem>) {
    forall k :: 0 <= k < |items| ==> items[k].Code?
  }

  /** The contents of a list of code items, in order. */
  function Contents(items: seq<OutputItem>): (r: seq<string>)
    requires AllCode(items)
    ensures |r| == |items|
    ensures forall k :: 0 <= k < |r| ==> r[k] == items[k].content
  {
    seq(|items|, k requires 0 <= k < |items| => items[k].content)
  }

  /** Some code item already collected has content `c`. */
  predicate AlreadyCollected(items: seq<OutputItem>, c: string)
    requires AllCode(items)
  {
    c in Contents(items)
  }

  /** A fence whose body is not blank: the blocks the parser keeps. */
  predicate HasBody(h: Hit) {
    !IsBlank(h.group2)
  }

  /** The language word of a fence, `python` when the fence has none. */
  function FenceLanguage(h: Hit): string {
    if h.group1 == "" then "python" else h.group1
  }

  /** The code item of one fenced-block match: its stripped body, in its language. */
  function FencedItem(h: Hit): OutputItem {
    Code(Strip(h.group2), FenceLanguage(h), OutputText)
  }

  /** The items of fenced-block matches: blank bodies dropped, kept bodies stripped. */
  function FencedItems(hits: seq<Hit>): (r: seq<OutputItem>)
    ensures AllCode(r)
    ensures |r| == |Filter(hits, HasBody)|
    ensures forall k :: 0 <= k < |r| ==> r[k] == FencedItem(Filter(hits, HasBody)[k])
    ensures forall k :: 0 <= k < |r| ==> r[k].origin == OutputText && r[k].language != ""
    ensures forall k :: 0 <= k < |r| ==> r[k].content != "" && IsStripped(r[k].content)
  {
    var kept := Filter(hits, HasBody);
    seq(|kept|, k requires 0 <= k < |kept| => FencedItem(kept[k]))
  }

  /** Each fenced item is the item of a match with a non-blank body. */
  lemma FencedItemsSound(hits: seq<Hit>)
    ensures forall k :: 0 <= k < |FencedItems(hits)| ==>
      exists h :: h in hits && HasBody(h) && FencedItems(hits)[k] == FencedItem(h)
  {
    var kept := Filter(hits, HasBody);
    SubsequenceElements(kept, hits);
    assert forall k :: 0 <= k < |FencedItems(hits)| ==> kept[k] in hits && FencedItems(hits)[k] == FencedItem(kept[k]);
  }

  /** The stripped body of every match with a non-blank body is among the fenced items. */
  lemma FencedItemsComplete(hits: seq<Hit>)
    ensures forall h :: h in hits && HasBody(h) ==> Strip(h.group2) in Contents(FencedItems(hits))
  {
    var kept := Filter(hits, HasBody);
    forall h | h in hits && HasBody(h) ensures Strip(h.group2) in Contents(FencedItems(hits)) {
      var k :| 0 <= k < |kept| && kept[k] == h;
      assert Contents(FencedItems(hits))[k] == Strip(h.group2);
    }
  }

  /** The code items of every markdown fence in `s`. */
  function FencedBlocks(s: string): (r: seq<OutputItem>)
    ensures AllCode(r)
  {
    FencedItems(FindAll(FencedBlock, s, 0))
  }

  /** The first groups of the matches, in match order. */
  function Group1s(hits: seq<Hit>): (r: seq<string>)
    ensures |r| == |hits|
    ensures forall k :: 0 <= k < |r| ==> r[k] == hits[k].group1
  {
    seq(|hits|, k requires 0 <= k < |hits| => hits[k].group1)
  }

  predicate NotBlank(s: string) {
    !IsBlank(s)
  }

  /** Each string stripped, in order. */
  function StripAll(xs: seq<string>): (r: seq<string>)
    ensures |r| == |xs|
    ensures forall k :: 0 <= k < |r| ==> r[k] == Strip(xs[k])
  {
    seq(|xs|, k requires 0 <= k < |xs| => Strip(xs[k]))
  }

  lemma StripAllHas(xs: seq<string>, k: nat)
    requires k < |xs|
    ensures Strip(xs[k]) in StripAll(xs)
  {
    assert StripAll(xs)[k] == Strip(xs[k]);
  }

  /** The stripped bodies that are not blank, in order. */
  function KeptBodies(bodies: seq<string>): (r: seq<string>)
    ensures |r| == |Filter(bodies, NotBlank)|
    ensures forall k :: 0 <= k < |r| ==> r[k] == Strip(Filter(bodies, NotBlank)[k])
    ensures forall k :: 0 <= k < |r| ==> r[k] != "" && IsStripped(r[k])
    ensures forall b :: b in bodies && NotBlank(b) ==> Strip(b) in r
  {
    var kept := Filter(bodies, NotBlank);
    forall b | b in bodies && NotBlank(b) ensures Strip(b) in StripAll(kept) {
      var k :| 0 <= k < |kept| && kept[k] == b;
      StripAllHas(kept, k);
    }
    StripAll(kept)
  }

  /** Each kept body is the stripped form of a body that is not blank. */
  lemma KeptBodiesSound(bodies: seq<string>)
    ensures forall k :: 0 <= k < |KeptBodies(bodies)| ==>
      exists b :: b in bodies && NotBlank(b) && KeptBodies(bodies)[k] == Strip(b)
  {
    var kept := Filter(bodies, NotBlank);
    SubsequenceElements(kept, bodies);
    assert forall k :: 0 <= k < |kept| ==> kept[k] in bodies && KeptBodies(bodies)[k] == Strip(kept[k]);
  }

  /** A log entry looks like code: a string containing `def `, `import `, `class ` or `=`. */
  predicate LooksLikeCode(line: string) {
    Contains(line, "def ") || Contains(line, "import ") || Contains(line, "class ") || Contains(line, "=")
  }

  predicate IsCodeLikeLine(e: LogEntry) {
    e.LogLine? && LooksLikeCode(e.line)
  }

  /** The string log entries that look like code, unchanged and in order. */
  function CodeLikeLines(logs: seq<LogEntry>): (r: seq<string>)
    ensures |r| == |Filter(logs, IsCodeLikeLine)|
    ensures forall k :: 0 <= k < |r| ==> LogLine(r[k]) == Filter(logs, IsCodeLikeLine)[k]
    ensures forall k :: 0 <= k < |r| ==> LooksLikeCode(r[k]) && LogLine(r[k]) in logs
    ensures forall e :: e in logs && IsCodeLikeLine(e) ==> e.line in r
  {
    var kept := Filter(logs, IsCodeLikeLine);
    SubsequenceElements(kept, logs);
    var r := seq(|kept|, k requires 0 <= k < |kept| => kept[k].line);
    assert forall e :: e in logs && IsCodeLikeLine(e) ==> e.line in r by {
      forall e | e in logs && IsCodeLikeLine(e) ensures e.line in r {
        var k :| 0 <= k < |kept| && kept[k] == e;
        assert r[k] == e.line;
      }
    }
    assert forall k :: 0 <= k < |r| ==> kept[k] in logs && kept[k] == LogLine(r[k]);
    r
  }

  /**
   * The candidates, in order, that are neither in `seen` nor equal to an earlier
   * candidate: what a loop appending each candidate not yet collected adds.
   */
  function NewContents(seen: seq<string>, cands: seq<string>): (r: seq<string>)
    ensures IsSubsequence(r, cands)
    ensures forall k :: 0 <= k < |r| ==> r[k] in cands
    ensures forall x :: x in r ==> x !in seen
    ensures NoDuplicates(r)
    ensures forall c :: c in cands ==> c in seen || c in r
    decreases |cands|
  {
    if cands == [] then []
    else
      var c := cands[0];
      assert forall x :: x in cands ==> x == c || x in cands[1..];
      if c in seen then NewContents(seen, cands[1..])
      else
        var rest := NewContents(seen + [c], cands[1..]);
        assert c !in rest;
        assert forall i :: 0 < i < |rest| + 1 ==> ([c] + rest)[i] == rest[i - 1];
        assert ([c] + rest)[1..] == rest;
        [c] + rest
  }

  /** Past the first candidate, the first occurrence of any other value sits one further on. */
  lemma FirstIndexTail(s: seq<string>, x: string)
    requires x in s && s[0] != x
    ensures x in s[1..] && FirstIndex(s, x) == 1 + FirstIndex(s[1..], x)
  {
    assert s == [s[0]] + s[1..];
  }

  /** The strings of `r`, all among `cands`, come in the order they first occur there. */
  predicate InFirstOccurrenceOrder(r: seq<string>, cands: seq<string>)
    requires forall k :: 0 <= k < |r| ==> r[k] in cands
  {
    forall i, j :: 0 <= i < j < |r| ==> FirstIndex(cands, r[i]) < FirstIndex(cands, r[j])
  }

  /** Strings in first-occurrence order after the first candidate, and other than it, are in order. */
  lemma OrderSkipsFirst(r: seq<string>, cands: seq<string>)
    requires cands != []
    requires forall k :: 0 <= k < |r| ==> r[k] in cands[1..] && r[k] != cands[0]
    requires InFirstOccurrenceOrder(r, cands[1..])
    ensures forall k :: 0 <= k < |r| ==> r[k] in cands
    ensures InFirstOccurrenceOrder(r, cands)
  {
    assert cands == [cands[0]] + cands[1..];
    forall i, j | 0 <= i < j < |r| ensures FirstIndex(cands, r[i]) < FirstIndex(cands, r[j]) {
      FirstIndexTail(cands, r[i]);
      FirstIndexTail(cands, r[j]);
    }
  }

  /** Putting the first candidate in front of such strings keeps them in order. */
  lemma OrderAfterFirst(r: seq<string>, cands: seq<string>)
    requires cands != []
    requires forall k :: 0 <= k < |r| ==> r[k] in cands[1..] && r[k] != cands[0]
    requires InFirstOccurrenceOrder(r, cands[1..])
    ensures forall k :: 0 <= k < |[cands[0]] + r| ==> ([cands[0]] + r)[k] in cands
    ensures InFirstOccurrenceOrder([cands[0]] + r, cands)
  {
    OrderSkipsFirst(r, cands);
    var r' := [cands[0]] + r;
    forall i, j | 0 <= i < j < |r'| ensures FirstIndex(cands, r'[i]) < FirstIndex(cands, r'[j]) {
      assert r'[j] == r[j - 1];
      if i > 0 {
        assert r'[i] == r[i - 1];
      }
    }
  }

  /** The new candidates keep the order in which they first occur among the candidates. */
  lemma {:induction false} NewContentsInFirstOccurrenceOrder(seen: seq<string>, cands: seq<string>)
    ensures InFirstOccurrenceOrder(NewContents(seen, cands), cands)
    decreases |cands|
  {
    if cands != [] {
      var c := cands[0];
      var t := cands[1..];
      if c in seen {
        NewContentsInFirstOccurrenceOrder(seen, t);
        OrderSkipsFirst(NewContents(seen, t), cands);
      } else {
        NewContentsInFirstOccurrenceOrder(seen + [c], t);
        OrderAfterFirst(NewContents(seen + [c], t), cands);
      }
    }
  }

  /** Python code items with the given contents and origin. */
  function CodeItems(contents: seq<string>, origin: CodeOrigin): (r: seq<OutputItem>)
    ensures AllCode(r) && Contents(r) == contents
    ensures forall k :: 0 <= k < |r| ==> r[k].language == "python" && r[k].origin == origin
  {
    seq(|contents|, k requires 0 <= k < |contents| => Code(contents[k], "python", origin))
  }

  /**
   * Appends a python code item for each candidate, in order, unless a code item with the
   * same content has already been collected (including one appended earlier here).
   */
  function AddNew(acc: seq<OutputItem>, cands: seq<string>, origin: CodeOrigin): (r: seq<OutputItem>)
    requires AllCode(acc)
    ensures AllCode(r) && |acc| <= |r| && r[..|acc|] == acc
    ensures forall k :: |acc| <= k < |r| ==> r[k].language == "python" && r[k].origin == origin
    ensures forall c :: c in cands ==> AlreadyCollected(r, c)
    ensures forall c :: AlreadyCollected(acc, c) ==> AlreadyCollected(r, c)
  {
    var items := CodeItems(NewContents(Contents(acc), cands), origin);
    assert Contents(acc + items) == Contents(acc) + Contents(items);
    acc + items
  }

  /**
   * The candidates taken one at a time, appending a python item for each whose content
   * no item collected so far has: the loop the parser runs for each kind of candidate.
   */
  function AppendEachNew(acc: seq<OutputItem>, cands: seq<string>, origin: CodeOrigin): (r: seq<OutputItem>)
    requires AllCode(acc)
    ensures AllCode(r)
    decreases |cands|
  {
    if cands == [] then acc
    else if AlreadyCollected(acc, cands[0]) then AppendEachNew(acc, cands[1..], origin)
    else AppendEachNew(acc + [Code(cands[0], "python", origin)], cands[1..], origin)
  }

  /** A candidate already collected adds nothing. */
  lemma AddNewSkips(acc: seq<OutputItem>, cands: seq<string>, origin: CodeOrigin)
    requires AllCode(acc) && cands != [] && AlreadyCollected(acc, cands[0])
    ensures AddNew(acc, cands, origin) == AddNew(acc, cands[1..], origin)
  {
    assert NewContents(Contents(acc), cands) == NewContents(Contents(acc), cands[1..]);
  }

  /** A candidate not yet collected is appended before the rest are considered. */
  lemma AddNewTakes(acc: seq<OutputItem>, cands: seq<string>, origin: CodeOrigin)
    requires AllCode(acc) && cands != [] && !AlreadyCollected(acc, cands[0])
    ensures AddNew(acc, cands, origin) == AddNew(acc + [Code(cands[0], "python", origin)], cands[1..], origin)
  {
    var item := Code(cands[0], "python", origin);
    var rest := NewContents(Contents(acc) + [cands[0]], cands[1..]);
    AppendedContents(acc, item);
    AppendedItems(acc, item, rest, origin);
  }

  /** Appending a code item appends its content. */
  lemma AppendedContents(acc: seq<OutputItem>, item: OutputItem)
    requires AllCode(acc) && item.Code?
    ensures Contents(acc + [item]) == Contents(acc) + [item.content]
  { }

  /** The items made of a first candidate and the rest are that candidate's item, then the rest's. */
  lemma AppendedItems(acc: seq<OutputItem>, item: OutputItem, rest: seq<string>, origin: CodeOrigin)
    requires item.Code? && item.language == "python" && item.origin == origin
    ensures acc + CodeItems([item.content] + rest, origin) == (acc + [item]) + CodeItems(rest, origin)
  {
    assert CodeItems([item.content] + rest, origin) == [item] + CodeItems(rest, origin);
  }

  /** `AddNew` is the candidate-by-candidate loop. */
  lemma {:induction false} AddNewIsLoop(acc: seq<OutputItem>, cands: seq<string>, origin: CodeOrigin)
    requires AllCode(acc)
    ensures AddNew(acc, cands, origin) == AppendEachNew(acc, cands, origin)
    decreases |cands|
  {
    if cands != [] {
      if AlreadyCollected(acc, cands[0]) {
        AddNewSkips(acc, cands, origin);
        AddNewIsLoop(acc, cands[1..], origin);
      } else {
        AddNewTakes(acc, cands, origin);
        AddNewIsLoop(acc + [Code(cands[0], "python", origin)], cands[1..], origin);
      }
    }
  }

  /**
   * Items `lo` up to `hi` of `r` are python items of `origin` whose contents are candidates,
   * each differing from every item before it, in the order the candidates first occur.
   */
  predicate FreshAfter(r: seq<OutputItem>, lo: nat, hi: nat, cands: seq<string>, origin: CodeOrigin)
    requires AllCode(r) && lo <= hi <= |r|
  {
    && (forall k :: lo <= k < hi ==> r[k].language == "python" && r[k].origin == origin && r[k].content in cands)
    && (forall j, k :: 0 <= j < k < hi && lo <= k ==> r[j].content != r[k].content)
    && (forall j, k :: lo <= j < k < hi ==> FirstIndex(cands, r[j].content) < FirstIndex(cands, r[k].content))
  }

  /** A stretch fresh in a list stays fresh in any extension of it. */
  lemma FreshAfterExtend(r: seq<OutputItem>, p: seq<OutputItem>, lo: nat, hi: nat, cands: seq<string>, origin: CodeOrigin)
    requires AllCode(r) && AllCode(p) && |p| <= |r| && r[..|p|] == p
    requires lo <= hi <= |p| && FreshAfter(p, lo, hi, cands, origin)
    ensures FreshAfter(r, lo, hi, cands, origin)
  {
    assert forall k :: 0 <= k < |p| ==> r[k] == p[k];
  }

  /**
   * The items `AddNew` appends are candidates not collected before, and no two of them
   * have the same content.
   */
  lemma AddNewAddsOnlyNew(acc: seq<OutputItem>, cands: seq<string>, origin: CodeOrigin)
    requires AllCode(acc)
    ensures var r := AddNew(acc, cands, origin);
      forall k :: |acc| <= k < |r| ==> r[k].content in cands && !AlreadyCollected(acc, r[k].content)
    ensures var r := AddNew(acc, cands, origin);
      forall k1, k2 :: |acc| <= k1 < k2 < |r| ==> r[k1].content != r[k2].content
    ensures var r := AddNew(acc, cands, origin);
      FreshAfter(r, |acc|, |r|, cands, origin)
  {
    var added := NewContents(Contents(acc), cands);
    NewContentsInFirstOccurrenceOrder(Contents(acc), cands);
    FreshItems(acc, added, cands, origin);
  }

  /**
   * Python items appended for distinct candidates, none collected before, in the order the
   * candidates first occur, are fresh.
   */
  lemma FreshItems(acc: seq<OutputItem>, added: seq<string>, cands: seq<string>, origin: CodeOrigin)
    requires AllCode(acc)
    requires forall k :: 0 <= k < |added| ==> added[k] in cands && added[k] !in Contents(acc)
    requires NoDuplicates(added) && InFirstOccurrenceOrder(added, cands)
    ensures var r := acc + CodeItems(added, origin);
      forall k :: |acc| <= k < |r| ==> r[k].content in cands && !AlreadyCollected(acc, r[k].content)
    ensures var r := acc + CodeItems(added, origin);
      forall k1, k2 :: |acc| <= k1 < k2 < |r| ==> r[k1].content != r[k2].content
    ensures var r := acc + CodeItems(added, origin);
      FreshAfter(r, |acc|, |r|, cands, origin)
  {
    var items := CodeItems(added, origin);
    var r := acc + items;
    assert forall k :: |acc| <= k < |r| ==> r[k] == items[k - |acc|] && r[k].content == added[k - |acc|];
    assert forall k :: 0 <= k < |acc| ==> r[k].content == Contents(acc)[k];
  }

  /** The stripped non-blank bodies of the labelled blocks of `raw`, in order. */
  function LabelledBodies(raw: string): seq<string> {
    KeptBodies(Group1s(FindAll(LabelledCode, raw, 0)))
  }

  /** The stripped non-blank bodies of the language-less fences of `raw`, in order. */
  function PlainBodies(raw: string): seq<string> {
    KeptBodies(Group1s(FindAll(PlainFence, raw, 0)))
  }

  lemma PrefixOfPrefix(a: seq<OutputItem>, b: seq<OutputItem>, c: seq<OutputItem>)
    requires |c| <= |b| <= |a| && a[..|b|] == b && b[..|c|] == c
    ensures a[..|c|] == c
  {
    assert forall k :: 0 <= k < |c| ==> a[k] == b[k];
  }

  /** `acc` followed by the fenced blocks of `raw`. */
  function WithFences(acc: seq<OutputItem>, raw: string): (r: seq<OutputItem>)
    requires AllCode(acc)
    ensures AllCode(r) && |acc| <= |r| && r[..|acc|] == acc
    ensures forall c :: AlreadyCollected(acc, c) ==> AlreadyCollected(r, c)
    ensures forall c :: c in Contents(FencedBlocks(raw)) ==> AlreadyCollected(r, c)
    ensures r[|acc|..] == FencedBlocks(raw)
  {
    var blocks := FencedBlocks(raw);
    ConcatenatedCode(acc, blocks);
    acc + blocks
  }

  /** Code items appended to code items: both parts stay in place and everything is collected. */
  lemma ConcatenatedCode(acc: seq<OutputItem>, more: seq<OutputItem>)
    requires AllCode(acc) && AllCode(more)
    ensures AllCode(acc + more) && (acc + more)[..|acc|] == acc && (acc + more)[|acc|..] == more
    ensures forall c :: AlreadyCollected(acc, c) || c in Contents(more) ==> AlreadyCollected(acc + more, c)
  {
    assert Contents(acc + more) == Contents(acc) + Contents(more);
  }

  /**
   * From position `lo` on, the items of `r` are python items of the output text whose
   * contents are labelled or language-less bodies of `raw`, each differing from every item
   * before it.
   */
  predicate NewBodiesFrom(r: seq<OutputItem>, lo: nat, raw: string)
    requires AllCode(r) && lo <= |r|
  {
    && (forall k :: lo <= k < |r| ==>
          && r[k].language == "python" && r[k].origin == OutputText
          && (r[k].content in LabelledBodies(raw) || r[k].content in PlainBodies(raw)))
    && (forall j, k :: 0 <= j < k < |r| && lo <= k ==> r[j].content != r[k].content)
  }

  /** `acc` followed by the new labelled bodies, then the new language-less bodies, of `raw`. */
  function WithBodies(acc: seq<OutputItem>, raw: string): (r: seq<OutputItem>)
    requires AllCode(acc)
    ensures AllCode(r) && |acc| <= |r| && r[..|acc|] == acc
    ensures forall c :: AlreadyCollected(acc, c) ==> AlreadyCollected(r, c)
    ensures forall c :: c in LabelledBodies(raw) ==> AlreadyCollected(r, c)
    ensures forall c :: c in PlainBodies(raw) ==> AlreadyCollected(r, c)
    ensures NewBodiesFrom(r, |acc|, raw)
  {
    var labelled := AddNew(acc, LabelledBodies(raw), OutputText);
    var r := AddNew(labelled, PlainBodies(raw), OutputText);
    PrefixOfPrefix(r, labelled, acc);
    AddNewAddsOnlyNew(acc, LabelledBodies(raw), OutputText);
    AddNewAddsOnlyNew(labelled, PlainBodies(raw), OutputText);
    FreshAfterExtend(r, labelled, |acc|, |labelled|, LabelledBodies(raw), OutputText);
    r
  }

  /**
   * `WithBodies` appends first the new labelled bodies, in the order they first occur, then
   * the new language-less bodies, in the order they first occur; all labelled bodies are
   * collected before the first language-less one is added.
   */
  lemma WithBodiesLayout(acc: seq<OutputItem>, raw: string) returns (m: nat)
    requires AllCode(acc)
    ensures var r := WithBodies(acc, raw);
      && |acc| <= m <= |r|
      && FreshAfter(r, |acc|, m, LabelledBodies(raw), OutputText)
      && FreshAfter(r, m, |r|, PlainBodies(raw), OutputText)
      && forall c :: c in LabelledBodies(raw) ==> c in Contents(r)[..m]
  {
    var labelled := AddNew(acc, LabelledBodies(raw), OutputText);
    var r := AddNew(labelled, PlainBodies(raw), OutputText);
    m := |labelled|;
    AddNewAddsOnlyNew(acc, LabelledBodies(raw), OutputText);
    AddNewAddsOnlyNew(labelled, PlainBodies(raw), OutputText);
    FreshAfterExtend(r, labelled, |acc|, m, LabelledBodies(raw), OutputText);
    assert Contents(r)[..m] == Contents(labelled);
  }

  /** The fenced blocks come right after `acc`, and only new bodies follow them. */
  lemma OutputCodeAfterFences(acc: seq<OutputItem>, raw: string)
    requires AllCode(acc)
    ensures var r := WithBodies(WithFences(acc, raw), raw);
      && |acc| + |FencedBlocks(raw)| <= |r|
      && r[|acc|..|acc| + |FencedBlocks(raw)|] == FencedBlocks(raw)
      && NewBodiesFrom(r, |acc| + |FencedBlocks(raw)|, raw)
  {
    var fenced := WithFences(acc, raw);
    var r := WithBodies(fenced, raw);
    assert |fenced| == |acc| + |FencedBlocks(raw)|;
    assert r[|acc|..|fenced|] == fenced[|acc|..];
  }

  /**
   * The code items collected from the raw output, after `acc`: its fenced blocks, then
   * new labelled blocks, then new language-less fences; nothing when there is no output.
   */
  function OutputCode(acc: seq<OutputItem>, raw: string): (r: seq<OutputItem>)
    requires AllCode(acc)
    ensures AllCode(r) && |acc| <= |r| && r[..|acc|] == acc
    ensures forall c :: AlreadyCollected(acc, c) ==> AlreadyCollected(r, c)
    ensures raw != "" ==> forall c :: c in Contents(FencedBlocks(raw)) ==> AlreadyCollected(r, c)
    ensures raw != "" ==> forall c :: c in LabelledBodies(raw) ==> AlreadyCollected(r, c)
    ensures raw != "" ==> forall c :: c in PlainBodies(raw) ==> AlreadyCollected(r, c)
    ensures raw == "" ==> r == acc
    ensures raw != "" ==> |acc| + |FencedBlocks(raw)| <= |r| && r[|acc|..|acc| + |FencedBlocks(raw)|] == FencedBlocks(raw)
    ensures raw != "" ==> NewBodiesFrom(r, |acc| + |FencedBlocks(raw)|, raw)
  {
    if raw == "" then acc
    else
      var fenced := WithFences(acc, raw);
      var r := WithBodies(fenced, raw);
      PrefixOfPrefix(r, fenced, acc);
      OutputCodeAfterFences(acc, raw);
      r
  }

  /**
   * With raw output, `OutputCode` appends the fenced blocks, then the new labelled bodies in
   * the order they first occur, then the new language-less bodies in the order they first
   * occur; the labelled bodies are all collected before the first language-less one.
   * Without raw output it appends nothing.
   */
  lemma OutputCodeLayout(acc: seq<OutputItem>, raw: string) returns (f: nat, m: nat)
    requires AllCode(acc)
    ensures var out := OutputCode(acc, raw);
      && |acc| <= f <= m <= |out|
      && (raw == "" ==> f == |acc| && m == |acc| && |out| == |acc|)
      && (raw != "" ==> out[|acc|..f] == FencedBlocks(raw))
      && FreshAfter(out, f, m, LabelledBodies(raw), OutputText)
      && FreshAfter(out, m, |out|, PlainBodies(raw), OutputText)
      && (raw != "" ==> forall c :: c in LabelledBodies(raw) ==> c in Contents(out)[..m])
  {
    if raw == "" {
      f, m := |acc|, |acc|;
    } else {
      var fenced := WithFences(acc, raw);
      f := |fenced|;
      m := WithBodiesLayout(fenced, raw);
      OutputCodeAfterFences(acc, raw);
    }
  }

  /** Whatever is appended after `out`, the layout of `out` stays as it was. */
  lemma LayoutKept(r: seq<OutputItem>, out: seq<OutputItem>, f: nat, m: nat, ls: seq<string>, ps: seq<string>)
    requires AllCode(r) && AllCode(out) && |out| <= |r| && r[..|out|] == out && f <= m <= |out|
    requires FreshAfter(out, f, m, ls, OutputText) && FreshAfter(out, m, |out|, ps, OutputText)
    ensures FreshAfter(r, f, m, ls, OutputText) && FreshAfter(r, m, |out|, ps, OutputText)
    ensures Contents(r)[..|out|] == Contents(out)
    ensures forall k :: 0 <= k <= |out| ==> r[..k] == out[..k] && Contents(r)[..k] == Contents(out)[..k]
  {
    FreshAfterExtend(r, out, f, m, ls, OutputText);
    FreshAfterExtend(r, out, m, |out|, ps, OutputText);
    assert forall k :: 0 <= k < |out| ==> r[k] == out[k];
  }

  /**
   * The code items of a response: one per code step, then the fenced blocks of the raw
   * output, then new labelled blocks and new plain-fence blocks of the raw output, then
   * new code-like string log entries.
   */
  function ExtractCodeBlocks(resp: AgentResponse): (r: seq<OutputItem>)
    ensures AllCode(r)
    ensures |resp.codeSteps| <= |r| && r[..|resp.codeSteps|] == StepItems(resp.codeSteps)
    ensures forall k :: |resp.codeSteps| <= k < |r| ==> r[k].origin == OutputText || r[k].origin == Logs
  {
    AddNew(OutputCode(StepItems(resp.codeSteps), resp.rawOutput), CodeLikeLines(resp.logs), Logs)
  }

  /**
   * The code items of a response are the step items, then (with raw output) the fenced
   * blocks, then the new labelled bodies, then the new language-less bodies, then the new
   * code-like string log entries, each group in the order its members first occur, every
   * appended item differing from all before it.
   */
  lemma ExtractCodeBlocksLayout(resp: AgentResponse) returns (f: nat, m: nat, q: nat)
    ensures var r := ExtractCodeBlocks(resp); var n := |resp.codeSteps|;
      && n <= f <= m <= q <= |r|
      && r[..n] == StepItems(resp.codeSteps)
      && (resp.rawOutput == "" ==> f == n && m == n && q == n)
      && (resp.rawOutput != "" ==> r[n..f] == FencedBlocks(resp.rawOutput))
      && FreshAfter(r, f, m, LabelledBodies(resp.rawOutput), OutputText)
      && FreshAfter(r, m, q, PlainBodies(resp.rawOutput), OutputText)
      && FreshAfter(r, q, |r|, CodeLikeLines(resp.logs), Logs)
    ensures resp.rawOutput != "" ==>
      forall c :: c in LabelledBodies(resp.rawOutput) ==> c in Contents(ExtractCodeBlocks(resp))[..m]
    ensures forall c :: c in PlainBodies(resp.rawOutput) && resp.rawOutput != "" ==>
      c in Contents(ExtractCodeBlocks(resp))[..q]
  {
    var steps := StepItems(resp.codeSteps);
    var raw := resp.rawOutput;
    var out := OutputCode(steps, raw);
    var r := ExtractCodeBlocks(resp);
    var n := |resp.codeSteps|;
    q := |out|;
    f, m := OutputCodeLayout(steps, raw);
    AddNewAddsOnlyNew(out, CodeLikeLines(resp.logs), Logs);
    LayoutKept(r, out, f, m, LabelledBodies(raw), PlainBodies(raw));
    assert r[n..f] == out[n..f] by {
      assert r[..f] == out[..f];
    }
  }

  /** Every non-blank fenced body of the raw output is collected, stripped. */
  lemma OutputCodeCollectsFences(acc: seq<OutputItem>, raw: string)
    requires AllCode(acc) && raw != ""
    ensures forall h :: h in FindAll(FencedBlock, raw, 0) && HasBody(h) ==>
      AlreadyCollected(OutputCode(acc, raw), Strip(h.group2))
  {
    FencedItemsComplete(FindAll(FencedBlock, raw, 0));
  }

  /** The first group of every match is among the matches' first groups. */
  lemma Group1sHas(hits: seq<Hit>, h: Hit)
    requires h in hits
    ensures h.group1 in Group1s(hits)
  {
    var k :| 0 <= k < |hits| && hits[k] == h;
    assert Group1s(hits)[k] == h.group1;
  }

  /** Every non-blank labelled and language-less body of the raw output is collected, stripped. */
  lemma OutputCodeCollectsBodies(acc: seq<OutputItem>, raw: string)
    requires AllCode(acc) && raw != ""
    ensures forall h :: h in FindAll(LabelledCode, raw, 0) && NotBlank(h.group1) ==>
      AlreadyCollected(OutputCode(acc, raw), Strip(h.group1))
    ensures forall h :: h in FindAll(PlainFence, raw, 0) && NotBlank(h.group1) ==>
      AlreadyCollected(OutputCode(acc, raw), Strip(h.group1))
  {
    forall h | h in FindAll(LabelledCode, raw, 0) ensures h.group1 in Group1s(FindAll(LabelledCode, raw, 0)) {
      Group1sHas(FindAll(LabelledCode, raw, 0), h);
    }
    forall h | h in FindAll(PlainFence, raw, 0) ensures h.group1 in Group1s(FindAll(PlainFence, raw, 0)) {
      Group1sHas(FindAll(PlainFence, raw, 0), h);
    }
  }

  /**
   * The code items of a response begin with one item per code step, in step order, and
   * end up containing every non-blank block body of the raw output (stripped) and every
   * code-like string log entry; without raw output, no item comes from the output text.
   */
  lemma ExtractCodeBlocksCollects(resp: AgentResponse)
    ensures |resp.codeSteps| <= |ExtractCodeBlocks(resp)|
    ensures ExtractCodeBlocks(resp)[..|resp.codeSteps|] == StepItems(resp.codeSteps)
    ensures forall e :: e in resp.logs && IsCodeLikeLine(e) ==> AlreadyCollected(ExtractCodeBlocks(resp), e.line)
    ensures resp.rawOutput != "" ==>
      forall h :: h in FindAll(FencedBlock, resp.rawOutput, 0) && HasBody(h) ==>
        AlreadyCollected(ExtractCodeBlocks(resp), Strip(h.group2))
    ensures resp.rawOutput != "" ==>
      forall h :: h in FindAll(LabelledCode, resp.rawOutput, 0) && NotBlank(h.group1) ==>
        AlreadyCollected(ExtractCodeBlocks(resp), Strip(h.group1))
    ensures resp.rawOutput != "" ==>
      forall h :: h in FindAll(PlainFence, resp.rawOutput, 0) && NotBlank(h.group1) ==>
        AlreadyCollected(ExtractCodeBlocks(resp), Strip(h.group1))
    ensures resp.rawOutput == "" ==>
      forall k :: 0 <= k < |ExtractCodeBlocks(resp)| ==> ExtractCodeBlocks(resp)[k].origin != OutputText
  {
    var steps := StepItems(resp.codeSteps);
    var out := OutputCode(steps, resp.rawOutput);
    PrefixOfPrefix(ExtractCodeBlocks(resp), out, steps);
    if resp.rawOutput != "" {
      OutputCodeCollectsFences(steps, resp.rawOutput);
      OutputCodeCollectsBodies(steps, resp.rawOutput);
    } else {
      assert out == steps;
    }
  }

  /**
   * The code items of the fenced blocks of the answer text: stripped non-empty bodies
   * from the output text, one for every fence whose body is not blank.
   */
  function ExtractCodeFromText(text: string): (r: seq<OutputItem>)
    ensures AllCode(r)
    ensures forall k :: 0 <= k < |r| ==> r[k].origin == OutputText && r[k].content != "" && IsStripped(r[k].content)
    ensures forall h :: h in FindAll(FencedBlock, text, 0) && HasBody(h) ==> AlreadyCollected(r, Strip(h.group2))
    ensures |r| == |Filter(FindAll(FencedBlock, text, 0), HasBody)|
    ensures forall k :: 0 <= k < |r| ==> r[k] == FencedItem(Filter(FindAll(FencedBlock, text, 0), HasBody)[k])
  {
    FencedItemsComplete(FindAll(FencedBlock, text, 0));
    FencedBlocks(text)
  }

  // ---------------------------------------------------------------- images

  /** The position of the last `c` in `s`, if any. */
  function LastIndexOf(s: string, c: char): (r: Option<nat>)
    ensures r.Some? ==> r.value < |s| && s[r.value] == c
    ensures r.Some? ==> forall k :: r.value < k < |s| ==> s[k] != c
    ensures r.None? ==> forall k :: 0 <= k < |s| ==> s[k] != c
    decreases |s|
  {
    if s == [] then None
    else if s[|s| - 1] == c then Some(|s| - 1)
    else LastIndexOf(s[..|s| - 1], c)
  }

  /** `PurePath.name` of a POSIX path: the part after the last slash. */
  function FileName(path: string): string {
    match LastIndexOf(path, '/')
    case None => path
    case Some(k) => path[k + 1..]
  }

  /**
   * `PurePath.suffix[1:]`: the text after the last dot of the file name, or `""` when the
   * name has no dot, begins with its only dot, or ends with it.
   */
  function SuffixFormat(path: string): (r: string)
    ensures '.' !in r && '/' !in r
    ensures r != "" ==> |r| < |path| && path[|path| - |r| - 1] == '.' && path[|path| - |r|..] == r
  {
    var name := FileName(path);
    match LastIndexOf(name, '.')
    case None => ""
    case Some(k) => if 0 < k < |name| - 1 then name[k + 1..] else ""
  }

  lemma LastSlashBeforeDot(g: string, d: nat)
    requires d < |g| && g[d] == '.'
    requires forall m :: d < m < |g| ==> IsAsciiLetter(g[m])
    ensures LastIndexOf(g, '/').Some? ==> LastIndexOf(g, '/').value < d
  {
  }

  lemma LastDotAt(name: string, j: nat)
    requires j < |name| && name[j] == '.'
    requires forall m :: j < m < |name| ==> IsAsciiLetter(name[m])
    ensures LastIndexOf(name, '.') == Some(j)
  {
  }

  /**
   * When the path ends in a dot and letters, its file name starts at or before the dot,
   * exactly at the dot when a slash precedes it.
   */
  lemma FileNameStart(g: string, d: nat) returns (start: nat)
    requires 0 < d < |g| && g[d] == '.'
    requires forall m :: d < m < |g| ==> IsAsciiLetter(g[m])
    ensures start <= d && FileName(g) == g[start..]
    ensures start == d <==> g[d - 1] == '/'
  {
    LastSlashBeforeDot(g, d);
    var slash := LastIndexOf(g, '/');
    start := if slash.Some? then slash.value + 1 else 0;
    if g[d - 1] == '/' {
      assert slash.Some? && slash.value == d - 1;
    }
  }

  /**
   * The format of an image token is its extension word as written, except that a file
   * name that starts with the dot (the character before it is a slash) has no suffix.
   */
  lemma TokenFormat(g: string, x: string)
    requires EndsWithDotWord(g, x)
    requires forall m :: 0 <= m < |x| ==> IsAsciiLetter(x[m])
    ensures SuffixFormat(g) == (if g[|g| - |x| - 2] == '/' then "" else x)
  {
    var d := |g| - |x| - 1;
    assert forall m :: d < m < |g| ==> g[m] == x[m - d - 1];
    var start := FileNameStart(g, d);
    var name := g[start..];
    LastDotAt(name, d - start);
    if start < d {
      assert name[d - start + 1..] == g[d + 1..] == x;
    }
  }

  /** An image path token: a stem, a dot and an extension word written in ASCII letters. */
  predicate IsImageToken(h: Hit) {
    && EndsWithDotWord(h.group1, h.group2)
    && IsExtensionWord(Lower(h.group2))
    && (forall m :: 0 <= m < |h.group2| ==> IsAsciiLetter(h.group2[m]))
  }

  /** A path-based image format is empty or one of the extension words, up to case. */
  predicate ImageFormatOk(format: string) {
    format == "" || IsExtensionWord(Lower(format))
  }

  /** The format read off an image token's path is empty or its extension word. */
  lemma TokenFormatOk(h: Hit)
    requires IsImageToken(h)
    ensures ImageFormatOk(SuffixFormat(h.group1))
  {
    TokenFormat(h.group1, h.group2);
  }

  /** The path of the match names an existing file whose bytes can be read. */
  predicate Readable(store: ImageStore, h: Hit) {
    store.pathExists(h.group1) && store.readBase64(h.group1).Some?
  }

  /** The matched paths that exist and can be read, in match order. */
  function ReadableTokens(hits: seq<Hit>, store: ImageStore): (r: seq<Hit>)
    ensures IsSubsequence(r, hits)
    ensures forall k :: 0 <= k < |r| ==> Readable(store, r[k])
    ensures forall h :: h in hits && Readable(store, h) ==> h in r
  {
    Filter(hits, h => Readable(store, h))
  }

  /**
   * One image item per matched path that exists and can be read, in match order: the
   * file's base64 text, the path's suffix as the format, and the path.
   */
  function PathImages(hits: seq<Hit>, store: ImageStore): (r: seq<OutputItem>)
    requires forall h :: h in hits ==> IsImageToken(h)
    ensures |r| == |ReadableTokens(hits, store)|
    ensures forall k :: 0 <= k < |r| ==>
      var h := ReadableTokens(hits, store)[k];
      && r[k].Image? && r[k].path == Some(h.group1) && store.readBase64(h.group1) == Some(r[k].content)
      && r[k].format == SuffixFormat(h.group1) && ImageFormatOk(r[k].format)
  {
    var kept := ReadableTokens(hits, store);
    SubsequenceElements(kept, hits);
    var r := seq(|kept|, k requires 0 <= k < |kept| =>
      Image(store.readBase64(kept[k].group1).value, SuffixFormat(kept[k].group1), Some(kept[k].group1)));
    assert forall k :: 0 <= k < |r| ==> ImageFormatOk(r[k].format) by {
      forall k | 0 <= k < |r| ensures ImageFormatOk(r[k].format) {
        assert kept[k] in hits;
        TokenFormatOk(kept[k]);
      }
    }
    r
  }

  /** Every matched path that exists and can be read yields an image item for that path. */
  lemma ReadablePathsAllShown(hits: seq<Hit>, store: ImageStore, h: Hit)
    requires forall x :: x in hits ==> IsImageToken(x)
    requires h in hits && Readable(store, h)
    ensures exists k :: 0 <= k < |PathImages(hits, store)| && PathImages(hits, store)[k].path == Some(h.group1)
  {
    var kept := ReadableTokens(hits, store);
    var k :| 0 <= k < |kept| && kept[k] == h;
    assert PathImages(hits, store)[k].path == Some(h.group1);
  }

  /** A data-URI match: a non-empty format without `;` and a non-empty base64 payload. */
  predicate IsDataUriHit(h: Hit) {
    && |h.group1| > 0 && ';' !in h.group1
    && |h.group2| > 0 && (forall m :: 0 <= m < |h.group2| ==> IsBase64Char(h.group2[m]))
  }

  /** An image item for each data URI, carrying its payload and format, in match order. */
  function DataUriImages(hits: seq<Hit>): (r: seq<OutputItem>)
    ensures |r| == |hits|
    ensures forall k :: 0 <= k < |r| ==> r[k] == Image(hits[k].group2, hits[k].group1, None)
  {
    seq(|hits|, k requires 0 <= k < |hits| => Image(hits[k].group2, hits[k].group1, None))
  }

  /** Every image-path match is a token with an extension word. */
  lemma ImagePathHitsAreTokens(raw: string)
    ensures forall h :: h in FindAll(ImagePath, raw, 0) ==> IsImageToken(h)
  {
    var hits := FindAll(ImagePath, raw, 0);
    forall h | h in hits ensures IsImageToken(h) {
      var k :| 0 <= k < |hits| && hits[k] == h;
      assert MatchAt(ImagePath, raw, h.start) == Some(h);
      ImagePathWord(raw, h.start);
    }
  }

  /** Every data-URI match has a non-empty format without `;` and a non-empty base64 payload. */
  lemma DataUriHitsWellFormed(raw: string)
    ensures forall h :: h in FindAll(DataUri, raw, 0) ==> IsDataUriHit(h)
  {
    var hits := FindAll(DataUri, raw, 0);
    forall h | h in hits ensures IsDataUriHit(h) {
      var k :| 0 <= k < |hits| && hits[k] == h;
      assert MatchAt(DataUri, raw, h.start) == Some(h);
    }
  }

  /** An image item read from a path: the file exists and the item holds its bytes and a valid format. */
  predicate IsPathImage(store: ImageStore, item: OutputItem) {
    && item.Image? && item.path.Some?
    && store.pathExists(item.path.value)
    && store.readBase64(item.path.value) == Some(item.content)
    && ImageFormatOk(item.format)
  }

  /** An image item of a data URI: no path, a non-empty base64 payload and a format without `;`. */
  predicate IsDataUriImage(item: OutputItem) {
    && item.Image? && item.path.None?
    && |item.content| > 0 && (forall m :: 0 <= m < |item.content| ==> IsBase64Char(item.content[m]))
    && |item.format| > 0 && ';' !in item.format
  }

  /** The data-URI images of well-formed matches have the data-URI shape. */
  lemma DataUriImagesShape(hits: seq<Hit>)
    requires forall h :: h in hits ==> IsDataUriHit(h)
    ensures forall k :: 0 <= k < |DataUriImages(hits)| ==> IsDataUriImage(DataUriImages(hits)[k])
  {
    assert forall k :: 0 <= k < |hits| ==> hits[k] in hits;
  }

  /**
   * The images of the raw output: readable existing image paths first, then data URIs;
   * no data-URI image precedes a path image.
   */
  function ExtractImages(raw: string, store: ImageStore): (r: seq<OutputItem>)
    ensures forall k :: 0 <= k < |r| ==> IsPathImage(store, r[k]) || IsDataUriImage(r[k])
    ensures forall i, j :: 0 <= i < j < |r| && IsPathImage(store, r[j]) ==> IsPathImage(store, r[i])
    ensures |r| == |ReadableTokens(FindAll(ImagePath, raw, 0), store)| + |FindAll(DataUri, raw, 0)|
    ensures var hits := FindAll(ImagePath, raw, 0); var n := |ReadableTokens(hits, store)|;
      && (forall h :: h in hits ==> IsImageToken(h))
      && r[..n] == PathImages(hits, store)
      && r[n..] == DataUriImages(FindAll(DataUri, raw, 0))
  {
    ImagePathHitsAreTokens(raw);
    DataUriHitsWellFormed(raw);
    var paths := PathImages(FindAll(ImagePath, raw, 0), store);
    var uris := DataUriImages(FindAll(DataUri, raw, 0));
    DataUriImagesShape(FindAll(DataUri, raw, 0));
    assert forall k :: 0 <= k < |paths| ==> IsPathImage(store, paths[k]);
    paths + uris
  }

  // ---------------------------------------------------------------- room highlights

  /** `\b` at position `p` of `t`: exactly one of the neighbouring characters is a word character. */
  predicate WordBoundary(t: string, p: nat) {
    (0 < p <= |t| && IsWordChar(t[p - 1])) != (p < |t| && IsWordChar(t[p]))
  }

  /** `w` occurs at `p` in `t` with a word boundary on each side. */
  predicate WholeWordAt(t: string, w: string, p: nat) {
    WordBoundary(t, p) && StartsAt(t, p, w) && WordBoundary(t, p + |w|)
  }

  /** The answer mentions `room` as a whole word, ignoring case. */
  predicate Mentions(text: string, room: string) {
    exists p :: 0 <= p <= |text| && WholeWordAt(Lower(text), Lower(room), p)
  }

  /** `re.search` for a whole word from position `i` on. */
  function SearchWord(t: string, w: string, i: nat): (found: bool)
    requires i <= |t|
    ensures found <==> exists p :: i <= p <= |t| && WholeWordAt(t, w, p)
    decreases |t| - i
  {
    if WholeWordAt(t, w, i) then true
    else if i == |t| then false
    else SearchWord(t, w, i + 1)
  }

  /** The rooms of `rooms` that the lower-cased answer mentions, in vocabulary order. */
  function RoomsMentioned(rooms: seq<string>, lowered: string): (r: seq<string>)
    ensures IsSubsequence(r, rooms)
    ensures forall x :: x in r <==> x in rooms && SearchWord(lowered, Lower(x), 0)
    ensures NoDuplicates(rooms) ==> NoDuplicates(r)
    decreases |rooms|
  {
    if rooms == [] then []
    else
      var rest := RoomsMentioned(rooms[1..], lowered);
      assert forall x :: x in rooms <==> x == rooms[0] || x in rooms[1..];
      if SearchWord(lowered, Lower(rooms[0]), 0) then
        [rooms[0]] + rest
      else rest
  }

  lemma RoomNamesDistinct()
    ensures NoDuplicates(RoomNames)
    ensures forall x :: x in RoomNames ==> |x| > 0
  {
  }

  /**
   * The rooms the answer names, for highlighting: exactly the vocabulary rooms the answer
   * mentions as whole words ignoring case, each once, in vocabulary order.
   */
  function ExtractRoomHighlights(text: string): (r: seq<string>)
    ensures text == "" ==> r == []
    ensures IsSubsequence(r, RoomNames) && NoDuplicates(r)
    ensures forall x :: x in r <==> x in RoomNames && text != "" && Mentions(text, x)
  {
    RoomNamesDistinct();
    if text == "" then [] else RoomsMentioned(RoomNames, Lower(text))
  }

  // ---------------------------------------------------------------- arrows

  /** The text the arrow markers are searched in: the raw output, a newline, the answer. */
  function ArrowSearchText(raw: string, text: string): string {
    raw + "\n" + text
  }

  /** Reads a direction word of the arrow marker, ignoring case. */
  function ParseDirection(w: string): (r: Option<Direction>)
    ensures r.Some? ==> r.value.Name() == Lower(w)
    ensures IsDirectionWord(Lower(w)) ==> r.Some?
  {
    var l := Lower(w);
    if l == "up" then Some(Up)
    else if l == "down" then Some(Down)
    else if l == "left" then Some(Left)
    else if l == "right" then Some(Right)
    else None
  }

  /** The arrow item of one marker match: the stripped room and the lower-cased direction. */
  function ArrowOfHit(h: Hit): (r: OutputItem)
    requires IsDirectionWord(Lower(h.group2))
  {
    Arrow(Strip(h.group1), ParseDirection(h.group2).value)
  }

  /** Every match of the arrow pattern carries a comma-free room and a direction word. */
  lemma ArrowHitsWellFormed(s: string)
    ensures forall h :: h in FindAll(ArrowCommand, s, 0) ==> ',' !in h.group1 && IsDirectionWord(Lower(h.group2))
  {
    var hits := FindAll(ArrowCommand, s, 0);
    forall h | h in hits ensures ',' !in h.group1 && IsDirectionWord(Lower(h.group2)) {
      var k :| 0 <= k < |hits| && hits[k] == h;
      assert MatchAt(ArrowCommand, s, h.start) == Some(h);
      ArrowCommandWord(s, h.start);
    }
  }

  /**
   * One arrow item per marker match in the combined text, in match order: the room is
   * the marker's room text stripped (so it has no comma and no surrounding whitespace)
   * and the direction is its direction word, lower-cased.
   */
  function ExtractArrows(raw: string, text: string): (r: seq<OutputItem>)
    ensures |r| == |FindAll(ArrowCommand, ArrowSearchText(raw, text), 0)|
    ensures forall k :: 0 <= k < |r| ==>
      var h := FindAll(ArrowCommand, ArrowSearchText(raw, text), 0)[k];
      && r[k].Arrow? && r[k].room == Strip(h.group1) && r[k].direction.Name() == Lower(h.group2)
    ensures forall k :: 0 <= k < |r| ==> r[k].Arrow? && IsStripped(r[k].room) && ',' !in r[k].room
  {
    var hits := FindAll(ArrowCommand, ArrowSearchText(raw, text), 0);
    ArrowHitsWellFormed(ArrowSearchText(raw, text));
    seq(|hits|, k requires 0 <= k < |hits| => ArrowOfHit(hits[k]))
  }

  /**
   * The arrows follow the markers of the combined text: their matches are ordered and do
   * not overlap, and every position where a marker matches lies within one of them.
   */
  lemma ArrowsFollowMarkers(raw: string, text: string)
    ensures var s := ArrowSearchText(raw, text);
      forall k1, k2 :: 0 <= k1 < k2 < |FindAll(ArrowCommand, s, 0)| ==>
        FindAll(ArrowCommand, s, 0)[k1].end <= FindAll(ArrowCommand, s, 0)[k2].start
    ensures var s := ArrowSearchText(raw, text);
      forall j :: 0 <= j < |s| && MatchAt(ArrowCommand, s, j).Some? ==> Covers(FindAll(ArrowCommand, s, 0), j)
  {
    var s := ArrowSearchText(raw, text);
    FindAllInOrder(ArrowCommand, s, 0);
    forall j | 0 <= j < |s| && MatchAt(ArrowCommand, s, j).Some?
      ensures Covers(FindAll(ArrowCommand, s, 0), j)
    {
      FindAllMissesNothing(ArrowCommand, s, 0, j);
    }
  }

  // ---------------------------------------------------------------- parse

  /** The tier of an item in the order `Parse` emits them. */
  function Tier(item: OutputItem): nat {
    match item
    case Code(_, _, _) => 0
    case Text(_) => 1
    case Error(_) => 1
    case Image(_, _, _) => 2
    case HighlightRoom(_) => 3
    case Arrow(_, _) => 4
  }

  /** The items' tiers never decrease along the list. */
  predicate TierOrdered(items: seq<OutputItem>) {
    forall i, j :: 0 <= i < j < |items| ==> Tier(items[i]) <= Tier(items[j])
  }

  /** The items of tier `t`, in their order in the list. */
  function OfTier(items: seq<OutputItem>, t: nat): (r: seq<OutputItem>)
    ensures AllOfTier(r, t) && |r| <= |items|
    decreases |items|
  {
    if items == [] then []
    else (if Tier(items[0]) == t then [items[0]] else []) + OfTier(items[1..], t)
  }

  lemma ConcatAssociates<T>(x: seq<T>, y: seq<T>, z: seq<T>)
    ensures x + (y + z) == (x + y) + z
  {
  }

  /** The items of a tier in a concatenation are those of the first part, then the second's. */
  lemma {:induction false} OfTierConcat(a: seq<OutputItem>, b: seq<OutputItem>, t: nat)
    ensures OfTier(a + b, t) == OfTier(a, t) + OfTier(b, t)
    decreases |a|
  {
    if a == [] {
      assert a + b == b;
    } else {
      assert a == [a[0]] + a[1..] && a + b == [a[0]] + (a[1..] + b);
      OfTierCons(a[0], a[1..], t);
      OfTierCons(a[0], a[1..] + b, t);
      OfTierConcat(a[1..], b, t);
      ConcatAssociates(if Tier(a[0]) == t then [a[0]] else [], OfTier(a[1..], t), OfTier(b, t));
    }
  }

  /** A group of one tier is all of that tier and none of any other. */
  lemma {:induction false} OfTierOfGroup(g: seq<OutputItem>, s: nat, t: nat)
    requires AllOfTier(g, s)
    ensures OfTier(g, t) == (if s == t then g else [])
    decreases |g|
  {
    if g != [] {
      OfTierOfGroup(g[1..], s, t);
      assert g == [g[0]] + g[1..];
    }
  }

  /** Five lists concatenated, all empty but possibly one, are that one. */
  lemma EmptyAround<T>(a: seq<T>, b: seq<T>, c: seq<T>, d: seq<T>, e: seq<T>)
    ensures a == b == c == d == [] ==> a + b + c + d + e == e
    ensures a == b == c == e == [] ==> a + b + c + d + e == d
    ensures a == b == d == e == [] ==> a + b + c + d + e == c
    ensures a == c == d == e == [] ==> a + b + c + d + e == b
    ensures b == c == d == e == [] ==> a + b + c + d + e == a
  {
  }

  /** In five groups of tiers 0 to 4, concatenated, the items of each tier are its group. */
  lemma FiveTierGroups(g0: seq<OutputItem>, g1: seq<OutputItem>, g2: seq<OutputItem>, g3: seq<OutputItem>, g4: seq<OutputItem>, t: nat)
    requires AllOfTier(g0, 0) && AllOfTier(g1, 1) && AllOfTier(g2, 2) && AllOfTier(g3, 3) && AllOfTier(g4, 4)
    ensures OfTier(g0 + g1 + g2 + g3 + g4, t)
      == if t == 0 then g0 else if t == 1 then g1 else if t == 2 then g2 else if t == 3 then g3 else if t == 4 then g4 else []
  {
    var a := g0 + g1;
    var b := a + g2;
    var c := b + g3;
    OfTierConcat(g0, g1, t);
    OfTierConcat(a, g2, t);
    OfTierConcat(b, g3, t);
    OfTierConcat(c, g4, t);
    OfTierOfGroup(g0, 0, t);
    OfTierOfGroup(g1, 1, t);
    OfTierOfGroup(g2, 2, t);
    OfTierOfGroup(g3, 3, t);
    OfTierOfGroup(g4, 4, t);
    var o0, o1, o2, o3, o4 := OfTier(g0, t), OfTier(g1, t), OfTier(g2, t), OfTier(g3, t), OfTier(g4, t);
    assert OfTier(c + g4, t) == o0 + o1 + o2 + o3 + o4;
    if t == 0 {
      EmptyAround(g0, o1, o2, o3, o4);
    } else if t == 1 {
      EmptyAround(o0, g1, o2, o3, o4);
    } else if t == 2 {
      EmptyAround(o0, o1, g2, o3, o4);
    } else if t == 3 {
      EmptyAround(o0, o1, o2, g3, o4);
    } else if t == 4 {
      EmptyAround(o0, o1, o2, o3, g4);
    } else {
      EmptyAround(o0, o1, o2, o3, o4);
    }
  }

  /** Five groups of tiers 0 to 4, concatenated, are ordered by tier and each tier is its group. */
  lemma FiveTiers(g0: seq<OutputItem>, g1: seq<OutputItem>, g2: seq<OutputItem>, g3: seq<OutputItem>, g4: seq<OutputItem>)
    requires AllOfTier(g0, 0) && AllOfTier(g1, 1) && AllOfTier(g2, 2) && AllOfTier(g3, 3) && AllOfTier(g4, 4)
    ensures var r := g0 + g1 + g2 + g3 + g4;
      && TierOrdered(r)
      && OfTier(r, 0) == g0 && OfTier(r, 1) == g1 && OfTier(r, 2) == g2 && OfTier(r, 3) == g3 && OfTier(r, 4) == g4
  {
    FiveTiersOrdered(g0, g1, g2, g3, g4);
    FiveTierGroups(g0, g1, g2, g3, g4, 0);
    FiveTierGroups(g0, g1, g2, g3, g4, 1);
    FiveTierGroups(g0, g1, g2, g3, g4, 2);
    FiveTierGroups(g0, g1, g2, g3, g4, 3);
    FiveTierGroups(g0, g1, g2, g3, g4, 4);
  }

  /** The five tier groups of a list, in tier order. */
  function TierGroups(items: seq<OutputItem>): seq<OutputItem> {
    OfTier(items, 0) + OfTier(items, 1) + OfTier(items, 2) + OfTier(items, 3) + OfTier(items, 4)
  }

  /** A list ordered by tier is its tier groups, one after the other: its groups fix it. */
  lemma {:induction false} TierOrderedIsItsGroups(items: seq<OutputItem>)
    requires TierOrdered(items)
    ensures items == TierGroups(items)
    decreases |items|
  {
    if items != [] {
      var x, rest := items[0], items[1..];
      assert TierOrdered(rest) by {
        forall i, j | 0 <= i < j < |rest| ensures Tier(rest[i]) <= Tier(rest[j]) {
          assert rest[i] == items[i + 1] && rest[j] == items[j + 1];
        }
      }
      TierOrderedIsItsGroups(rest);
      forall t: nat | t < Tier(x) ensures OfTier(rest, t) == [] {
        OfTierBelow(rest, Tier(x), t);
      }
      assert items == [x] + rest;
      TierGroupsOfCons(x, rest);
    }
  }

  /** No item of a list whose tiers are all at least `lo` has a tier below `lo`. */
  lemma {:induction false} OfTierBelow(items: seq<OutputItem>, lo: nat, t: nat)
    requires t < lo && forall k :: 0 <= k < |items| ==> lo <= Tier(items[k])
    ensures OfTier(items, t) == []
    decreases |items|
  {
    if items != [] {
      OfTierBelow(items[1..], lo, t);
    }
  }

  /** The items of a tier in a list with `x` in front: `x` if it has that tier, then the rest's. */
  lemma OfTierCons(x: OutputItem, rest: seq<OutputItem>, t: nat)
    ensures OfTier([x] + rest, t) == (if Tier(x) == t then [x] else []) + OfTier(rest, t)
  {
    assert ([x] + rest)[0] == x && ([x] + rest)[1..] == rest;
  }

  /** An item in front of five groups joins the first group that is not empty before it. */
  lemma FrontIntoGroups<T>(x: T, g0: seq<T>, g1: seq<T>, g2: seq<T>, g3: seq<T>, g4: seq<T>)
    ensures [x] + (g0 + g1 + g2 + g3 + g4) == ([x] + g0) + g1 + g2 + g3 + g4
    ensures g0 == [] ==> [x] + (g0 + g1 + g2 + g3 + g4) == [] + ([x] + g1) + g2 + g3 + g4
    ensures g0 == [] && g1 == [] ==> [x] + (g0 + g1 + g2 + g3 + g4) == [] + [] + ([x] + g2) + g3 + g4
    ensures g0 == [] && g1 == [] && g2 == [] ==> [x] + (g0 + g1 + g2 + g3 + g4) == [] + [] + [] + ([x] + g3) + g4
    ensures g0 == [] && g1 == [] && g2 == [] && g3 == [] ==> [x] + (g0 + g1 + g2 + g3 + g4) == [] + [] + [] + [] + ([x] + g4)
  {
  }

  /** Putting an item of the lowest tier in front of a list puts it in front of its groups. */
  lemma TierGroupsOfCons(x: OutputItem, rest: seq<OutputItem>)
    requires forall t: nat :: t < Tier(x) ==> OfTier(rest, t) == []
    ensures TierGroups([x] + rest) == [x] + TierGroups(rest)
  {
    var r := [x] + rest;
    OfTierCons(x, rest, 0);
    OfTierCons(x, rest, 1);
    OfTierCons(x, rest, 2);
    OfTierCons(x, rest, 3);
    OfTierCons(x, rest, 4);
    var g0, g1, g2, g3, g4 := OfTier(rest, 0), OfTier(rest, 1), OfTier(rest, 2), OfTier(rest, 3), OfTier(rest, 4);
    var x0, x1, x2, x3, x4 := OfTier(r, 0), OfTier(r, 1), OfTier(r, 2), OfTier(r, 3), OfTier(r, 4);
    assert TierGroups(r) == x0 + x1 + x2 + x3 + x4 && TierGroups(rest) == g0 + g1 + g2 + g3 + g4;
    FrontIntoGroups(x, g0, g1, g2, g3, g4);
    if Tier(x) == 0 {
      assert x0 == [x] + g0 && x1 == g1 && x2 == g2 && x3 == g3 && x4 == g4;
    } else if Tier(x) == 1 {
      assert x0 == [] && x1 == [x] + g1 && x2 == g2 && x3 == g3 && x4 == g4;
    } else if Tier(x) == 2 {
      assert x0 == [] && x1 == [] && x2 == [x] + g2 && x3 == g3 && x4 == g4;
    } else if Tier(x) == 3 {
      assert x0 == [] && x1 == [] && x2 == [] && x3 == [x] + g3 && x4 == g4;
    } else {
      assert x0 == [] && x1 == [] && x2 == [] && x3 == [] && x4 == [x] + g4;
    }
  }

  /** The text or error item: an error whenever the flag is set, else text when there is any. */
  function MessageItems(text: string, error: bool): (r: seq<OutputItem>)
    ensures |r| <= 1 && AllOfTier(r, 1)
    ensures MessageRule(r, text, error)
  {
    var r := if text != "" && !error then [Text(text)] else if error then [Error(text)] else [];
    assert error ==> r[0] == Error(text);
    assert !error && text != "" ==> r[0] == Text(text);
    r
  }

  /**
   * The highlight item: one, listing the mentioned rooms, when the answer mentions some
   * room of the vocabulary; none otherwise.
   */
  function HighlightItems(text: string): (r: seq<OutputItem>)
    ensures |r| <= 1
    ensures r != [] ==> r[0] == HighlightRoom(ExtractRoomHighlights(text)) && r[0].rooms != []
    ensures r == [] ==> forall x :: x in RoomNames ==> !(text != "" && Mentions(text, x))
  {
    var rooms := ExtractRoomHighlights(text);
    if rooms != [] then [HighlightRoom(rooms)] else []
  }

  /** Every item of `s` has tier `t`. */
  predicate AllOfTier(s: seq<OutputItem>, t: nat) {
    forall k :: 0 <= k < |s| ==> Tier(s[k]) == t
  }

  lemma ConcatTierOrdered(a: seq<OutputItem>, b: seq<OutputItem>)
    requires TierOrdered(a) && TierOrdered(b)
    requires forall i, j :: 0 <= i < |a| && 0 <= j < |b| ==> Tier(a[i]) <= Tier(b[j])
    ensures TierOrdered(a + b)
  {
    var ab := a + b;
    forall i, j | 0 <= i < j < |ab| ensures Tier(ab[i]) <= Tier(ab[j]) {
      if j < |a| {
        assert ab[i] == a[i] && ab[j] == a[j];
      } else if i >= |a| {
        assert ab[i] == b[i - |a|] && ab[j] == b[j - |a|];
      } else {
        assert ab[i] == a[i] && ab[j] == b[j - |a|];
      }
    }
  }

  /** Five groups of items of tiers 0 to 4, concatenated, are ordered by tier. */
  lemma FiveTiersOrdered(g0: seq<OutputItem>, g1: seq<OutputItem>, g2: seq<OutputItem>, g3: seq<OutputItem>, g4: seq<OutputItem>)
    requires AllOfTier(g0, 0) && AllOfTier(g1, 1) && AllOfTier(g2, 2) && AllOfTier(g3, 3) && AllOfTier(g4, 4)
    ensures TierOrdered(g0 + g1 + g2 + g3 + g4)
  {
    ConcatTierOrdered(g0, g1);
    var a := g0 + g1;
    assert forall k :: 0 <= k < |a| ==> Tier(a[k]) <= 1;
    ConcatTierOrdered(a, g2);
    var b := a + g2;
    assert forall k :: 0 <= k < |b| ==> Tier(b[k]) <= 2;
    ConcatTierOrdered(b, g3);
    var c := b + g3;
    assert forall k :: 0 <= k < |c| ==> Tier(c[k]) <= 3;
    ConcatTierOrdered(c, g4);
  }

  /**
   * The code items of a response: those of the response, then the fenced blocks of a
   * non-empty answer, which are stripped, non-empty and come from the output text.
   */
  function AllCodeItems(resp: AgentResponse): (r: seq<OutputItem>)
    ensures AllOfTier(r, 0)
    ensures |ExtractCodeBlocks(resp)| <= |r| && r[..|ExtractCodeBlocks(resp)|] == ExtractCodeBlocks(resp)
    ensures resp.text == "" ==> |r| == |ExtractCodeBlocks(resp)|
    ensures forall k :: |ExtractCodeBlocks(resp)| <= k < |r| ==>
      r[k].Code? && r[k].origin == OutputText && r[k].content != "" && IsStripped(r[k].content)
    ensures resp.text != "" ==> r[|ExtractCodeBlocks(resp)|..] == ExtractCodeFromText(resp.text)
  {
    ExtractCodeBlocks(resp) + (if resp.text != "" then ExtractCodeFromText(resp.text) else [])
  }

  /**
   * The parsed items of a response, given the file system the image scan consults: code
   * first, then the text or error item, images, the highlight and the arrows.
   */
  function Parse(resp: AgentResponse, store: ImageStore): (r: seq<OutputItem>)
    ensures TierOrdered(r)
    ensures MessageRule(r, resp.text, resp.error)
    ensures OfTier(r, 0) == AllCodeItems(resp)
    ensures OfTier(r, 1) == MessageItems(resp.text, resp.error)
    ensures OfTier(r, 2) == ExtractImages(resp.rawOutput, store)
    ensures OfTier(r, 3) == HighlightItems(resp.text)
    ensures OfTier(r, 4) == ExtractArrows(resp.rawOutput, resp.text)
  {
    var code := AllCodeItems(resp);
    var message := MessageItems(resp.text, resp.error);
    var images := ExtractImages(resp.rawOutput, store);
    var highlight := HighlightItems(resp.text);
    var arrows := ExtractArrows(resp.rawOutput, resp.text);
    ImagesTier(resp.rawOutput, store);
    HighlightTier(resp.text);
    ArrowsTier(resp.rawOutput, resp.text);
    FiveTiers(code, message, images, highlight, arrows);
    MessageRuleOfGroups(code, images, highlight, arrows, resp.text, resp.error);
    code + message + images + highlight + arrows
  }

  lemma ImagesTier(raw: string, store: ImageStore)
    ensures AllOfTier(ExtractImages(raw, store), 2)
  {
    ImageKindsTier(ExtractImages(raw, store), store);
  }

  /** Path images and data-URI images are all of the image tier. */
  lemma ImageKindsTier(r: seq<OutputItem>, store: ImageStore)
    requires forall k :: 0 <= k < |r| ==> IsPathImage(store, r[k]) || IsDataUriImage(r[k])
    ensures AllOfTier(r, 2)
  {
    forall k | 0 <= k < |r| ensures r[k].Image? {
      assert IsPathImage(store, r[k]) || IsDataUriImage(r[k]);
    }
  }

  lemma HighlightTier(text: string)
    ensures AllOfTier(HighlightItems(text), 3)
  {
  }

  lemma ArrowsTier(raw: string, text: string)
    ensures AllOfTier(ExtractArrows(raw, text), 4)
  {
  }

  /** In five groups of tiers 0 to 4, concatenated, the items of tier 1 are those of the second group. */
  lemma TierOneIsSecondGroup(g0: seq<OutputItem>, g1: seq<OutputItem>, g2: seq<OutputItem>, g3: seq<OutputItem>, g4: seq<OutputItem>)
    requires AllOfTier(g0, 0) && AllOfTier(g1, 1) && AllOfTier(g2, 2) && AllOfTier(g3, 3) && AllOfTier(g4, 4)
    ensures var r := g0 + g1 + g2 + g3 + g4;
      forall k :: 0 <= k < |r| && Tier(r[k]) == 1 ==> |g0| <= k < |g0| + |g1| && r[k] == g1[k - |g0|]
    ensures var r := g0 + g1 + g2 + g3 + g4;
      forall k :: 0 <= k < |g1| ==> r[|g0| + k] == g1[k]
  {
    var r := g0 + g1 + g2 + g3 + g4;
    assert r == g0 + g1 + (g2 + g3 + g4);
    var rest := g2 + g3 + g4;
    assert forall m :: 0 <= m < |rest| ==> Tier(rest[m]) >= 2;
  }

  /**
   * The message rule of an item list: an error item, carrying the answer text, exactly
   * when the error flag is set; otherwise a text item exactly when the answer is
   * non-empty; never both, and never more than one.
   */
  predicate MessageRule(r: seq<OutputItem>, text: string, error: bool) {
    && (forall k :: 0 <= k < |r| && r[k].Error? ==> error && r[k].content == text)
    && (forall k :: 0 <= k < |r| && r[k].Text? ==> !error && text != "" && r[k].content == text)
    && (error ==> exists k :: 0 <= k < |r| && r[k] == Error(text))
    && (!error && text != "" ==> exists k :: 0 <= k < |r| && r[k] == Text(text))
    && (forall i, j :: 0 <= i < j < |r| ==> Tier(r[i]) != 1 || Tier(r[j]) != 1)
  }

  /** The message rule holds of any list whose tier-1 items are exactly the message items. */
  lemma MessageRuleOfGroups(g0: seq<OutputItem>, g2: seq<OutputItem>, g3: seq<OutputItem>, g4: seq<OutputItem>, text: string, error: bool)
    requires AllOfTier(g0, 0) && AllOfTier(g2, 2) && AllOfTier(g3, 3) && AllOfTier(g4, 4)
    ensures MessageRule(g0 + MessageItems(text, error) + g2 + g3 + g4, text, error)
  {
    var msg := MessageItems(text, error);
    TierOneIsSecondGroup(g0, msg, g2, g3, g4);
    var r := g0 + msg + g2 + g3 + g4;
    if msg != [] {
      assert r[|g0|] == msg[0];
    }
  }
}
