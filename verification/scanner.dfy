/**
 * The textual patterns the output parser searches for, each written as a matcher that
 * decides whether the pattern matches at one position of the subject and, if so, where
 * the match ends and what its capture groups hold, plus `FindAll`, the left-to-right,
 * non-overlapping search of Python's `re.findall`.
 *
 * Every matcher below gives the match Python's backtracking engine settles on first.
 * Where a greedy part of a pattern could in principle give characters back, the doc
 * comment says why giving back can never help, so that the first success is unique.
 */
module Scanner {
  import opened Basics
  import opened Strings

  /** The six patterns of backend/output_parser.py. */
  datatype Pattern =
    | FencedBlock   // a markdown fence with an optional language word
    | PlainFence    // a markdown fence with nothing between the backticks and the newline
    | LabelledCode  // a `Code:`-style label followed by indented lines
    | ImagePath     // a run of non-blank characters ending in an image extension
    | DataUri       // an inline `data:image/<format>;base64,<payload>` URI
    | ArrowCommand  // the `ARROW_COMMAND: room=<name>, direction=<dir>` marker

  /**
   * One match: the half-open span `[start, end)` of the subject and the first two capture
   * groups. A group that did not take part in the match is `""`, as `re.findall` reports it.
   */
  datatype Hit = Hit(start: nat, end: nat, group1: string, group2: string)

  predicate NotNewline(c: char) {
    c != '\n'
  }

  predicate NotSemicolon(c: char) {
    c != ';'
  }

  predicate NotComma(c: char) {
    c != ','
  }

  /** The characters `[A-Za-z0-9+/=]` a base64 payload is made of. */
  predicate IsBase64Char(c: char) {
    ('A' <= c <= 'Z') || ('a' <= c <= 'z') || ('0' <= c <= '9') || c == '+' || c == '/' || c == '='
  }

  /** The image file extensions the path pattern accepts, lower case, without the dot. */
  const ImageExtensionWords: seq<string> := ["png", "jpg", "jpeg", "gif", "bmp", "svg"]

  /** The direction words the arrow marker accepts. */
  const DirectionWords: seq<string> := ["up", "down", "left", "right"]

  predicate IsExtensionWord(w: string) {
    IsOneOf(w, ImageExtensionWords)
  }

  predicate IsDirectionWord(w: string) {
    IsOneOf(w, DirectionWords)
  }

  /** Every character of `w` is a lower-case ASCII letter. */
  predicate IsLowerWord(w: string) {
    forall k :: 0 <= k < |w| ==> 'a' <= w[k] <= 'z'
  }

  lemma {:induction false} OneOfLowerWords(w: string, words: seq<string>)
    requires IsOneOf(w, words)
    requires forall i :: 0 <= i < |words| ==> IsLowerWord(words[i])
    ensures IsLowerWord(w)
    decreases |words|
  {
    if w != words[0] {
      OneOfLowerWords(w, words[1..]);
    }
  }

  /**
   * A fenced block at `i`: three backticks, the longest run of word characters, which
   * must be followed by a newline, then everything up to the first later triple backtick.
   * A shorter language run would leave a word character where the newline must be, so
   * the longest run is the only candidate; the lazy body stops at the first closing fence.
   */
  function FencedBlockAt(s: string, i: nat): (r: Option<Hit>)
    requires i <= |s|
    ensures r.Some? ==> r.value.start == i < r.value.end <= |s|
    ensures r.Some? ==> forall k :: 0 <= k < |r.value.group1| ==> IsWordChar(r.value.group1[k])
  {
    if !StartsAt(s, i, "```") then None
    else
      var w := RunEnd(s, i + 3, IsWordChar);
      if w == |s| || s[w] != '\n' then None
      else
        match FindFrom(s, "```", w + 1)
        case None => None
        case Some(k) => Some(Hit(i, k + 3, s[i + 3..w], s[w + 1..k]))
  }

  /** The text from `i` to `c + 3` spelled out around its newline at `w`. */
  lemma FenceSpelling(s: string, i: nat, w: nat, c: nat)
    requires i + 3 <= w < c && c + 3 <= |s|
    requires s[i..i + 3] == "```" && s[w] == '\n' && s[c..c + 3] == "```"
    ensures s[i..c + 3] == "```" + s[i + 3..w] + "\n" + s[w + 1..c] + "```"
  {
    SliceSplit(s, i, c, c + 3);
    SliceSplit(s, i, w + 1, c);
    SliceSplit(s, i, w, w + 1);
    SliceSplit(s, i, i + 3, w);
    assert s[w..w + 1] == "\n";
  }

  /**
   * A fenced-block match is three backticks, its language word, a newline, its body and
   * three backticks, where the body holds no triple backtick and the closing one is the
   * first after the newline.
   */
  lemma FencedBlockShape(s: string, i: nat) returns (w: nat, c: nat)
    requires i <= |s| && FencedBlockAt(s, i).Some?
    ensures var h := FencedBlockAt(s, i).value;
      && i + 3 <= w < c && h.end == c + 3
      && h.group1 == s[i + 3..w] && s[w] == '\n' && h.group2 == s[w + 1..c]
      && StartsAt(s, c, "```") && (forall k :: w + 1 <= k < c ==> !StartsAt(s, k, "```"))
      && s[i..h.end] == "```" + h.group1 + "\n" + h.group2 + "```"
  {
    w := RunEnd(s, i + 3, IsWordChar);
    c := FindFrom(s, "```", w + 1).value;
    var h := FencedBlockAt(s, i).value;
    FenceSpelling(s, i, w, c);
  }

  /**
   * Conversely, three backticks, a run of word characters, a newline, and a body up to the
   * first triple backtick after it make exactly that match.
   */
  lemma FencedBlockFound(s: string, i: nat, w: nat, c: nat)
    requires i + 3 <= w < c && StartsAt(s, i, "```") && StartsAt(s, c, "```")
    requires forall k :: i + 3 <= k < w ==> IsWordChar(s[k])
    requires s[w] == '\n' && forall k :: w + 1 <= k < c ==> !StartsAt(s, k, "```")
    ensures FencedBlockAt(s, i) == Some(Hit(i, c + 3, s[i + 3..w], s[w + 1..c]))
  {
    RunEndIs(s, i + 3, IsWordChar, w);
    FindFromIs(s, "```", w + 1, c);
  }

  /** A fence with no language word at `i`: three backticks, a newline, a lazy body. */
  function PlainFenceAt(s: string, i: nat): (r: Option<Hit>)
    requires i <= |s|
    ensures r.Some? ==> r.value.start == i < r.value.end <= |s| && r.value.group2 == ""
  {
    if !StartsAt(s, i, "```\n") then None
    else
      match FindFrom(s, "```", i + 4)
      case None => None
      case Some(k) => Some(Hit(i, k + 3, s[i + 4..k], ""))
  }

  /**
   * A plain-fence match is three backticks, a newline, its body and three backticks, the
   * closing ones the first after the newline.
   */
  lemma PlainFenceShape(s: string, i: nat) returns (c: nat)
    requires i <= |s| && PlainFenceAt(s, i).Some?
    ensures var h := PlainFenceAt(s, i).value;
      && i + 4 <= c && h.end == c + 3 && h.group1 == s[i + 4..c]
      && StartsAt(s, c, "```") && (forall k :: i + 4 <= k < c ==> !StartsAt(s, k, "```"))
      && s[i..h.end] == "```\n" + h.group1 + "```"
  {
    c := FindFrom(s, "```", i + 4).value;
    SliceSplit(s, i, c, c + 3);
    SliceSplit(s, i, i + 4, c);
  }

  /** Conversely, three backticks, a newline, and a body up to the first triple backtick make that match. */
  lemma PlainFenceFound(s: string, i: nat, c: nat)
    requires i + 4 <= c && StartsAt(s, i, "```\n")
    requires StartsAt(s, c, "```") && forall k :: i + 4 <= k < c ==> !StartsAt(s, k, "```")
    ensures PlainFenceAt(s, i) == Some(Hit(i, c + 3, s[i + 4..c], ""))
  {
    FindFromIs(s, "```", i + 4, c);
  }

  /** The length of the label `Code:`, `Executing code:` or `Running code:` at `i`, or 0. */
  function LabelLength(s: string, i: nat): (n: nat)
    ensures n > 0 ==> i + n <= |s|
  {
    if StartsAt(s, i, "Code:") then 5
    else if StartsAt(s, i, "Executing code:") then 15
    else if StartsAt(s, i, "Running code:") then 13
    else 0
  }

  /** A label is found exactly when one of the three is written at `i`, and it is what is written there. */
  lemma LabelLengthSpelled(s: string, i: nat, a: nat)
    requires a == i + LabelLength(s, i)
    ensures a > i <==> StartsAt(s, i, "Code:") || StartsAt(s, i, "Executing code:") || StartsAt(s, i, "Running code:")
    ensures a > i ==> a <= |s| && s[i..a] in {"Code:", "Executing code:", "Running code:"}
  { }

  /**
   * A line of the indented block can start at `p`: a space or tab followed by a character
   * other than a newline. (One or more blanks and then at least one more character on the
   * same line; when the blanks run to the end of the line, the last blank is given back.)
   */
  predicate OpensIndentedLine(s: string, p: nat) {
    p + 1 < |s| && (s[p] == ' ' || s[p] == '\t') && s[p + 1] != '\n'
  }

  /**
   * The end of the longest run of indented lines starting at `p`; each line is taken up
   * to its end together with its newline, if it has one.
   */
  function IndentedRunEnd(s: string, p: nat): (e: nat)
    requires p <= |s|
    ensures p <= e <= |s|
    ensures OpensIndentedLine(s, p) ==> p < e
    decreases |s| - p
  {
    if !OpensIndentedLine(s, p) then p
    else
      var lineEnd := RunEnd(s, p, NotNewline);
      if lineEnd == |s| then lineEnd else IndentedRunEnd(s, lineEnd + 1)
  }

  /** Position `n` holds a newline after which an indented line opens. */
  predicate NewlineOpensBlock(s: string, n: nat) {
    n < |s| && s[n] == '\n' && OpensIndentedLine(s, n + 1)
  }

  /**
   * The newline, among positions `[lo, hi)`, that the whitespace after a label ends on:
   * the last one that is followed by an indented line. Greedy whitespace matching tries
   * the later newlines first, and the block after a newline matches exactly when an
   * indented line opens there.
   */
  function BlockNewline(s: string, lo: nat, hi: nat): (r: Option<nat>)
    requires lo <= hi <= |s|
    ensures r.Some? ==> lo <= r.value < hi && NewlineOpensBlock(s, r.value)
    decreases hi - lo
  {
    if hi == lo then None
    else if NewlineOpensBlock(s, hi - 1) then Some(hi - 1)
    else BlockNewline(s, lo, hi - 1)
  }

  /** No newline after the one `BlockNewline` picks, and none at all when it picks none, opens a block. */
  lemma {:induction false} BlockNewlineLatest(s: string, lo: nat, hi: nat)
    requires lo <= hi <= |s|
    ensures BlockNewline(s, lo, hi).Some? ==> forall n :: BlockNewline(s, lo, hi).value < n < hi ==> !NewlineOpensBlock(s, n)
    ensures BlockNewline(s, lo, hi).None? ==> forall n :: lo <= n < hi ==> !NewlineOpensBlock(s, n)
    decreases hi - lo
  {
    if hi > lo && !NewlineOpensBlock(s, hi - 1) {
      BlockNewlineLatest(s, lo, hi - 1);
      var r := BlockNewline(s, lo, hi - 1);
      assert BlockNewline(s, lo, hi) == r;
      forall n | (if r.Some? then r.value < n else lo <= n) && n < hi
        ensures !NewlineOpensBlock(s, n)
      {
        if n < hi - 1 {
          assert (if r.Some? then r.value < n else lo <= n) && n < hi - 1;
        }
      }
    }
  }

  /**
   * A labelled code block at `i`: a label, whitespace ending on a newline, and a non-empty
   * run of indented lines, which is the captured group.
   */
  function LabelledCodeAt(s: string, i: nat): (r: Option<Hit>)
    requires i <= |s|
    ensures r.Some? ==> r.value.start == i < r.value.end <= |s| && r.value.group2 == ""
  {
    var labelLen := LabelLength(s, i);
    if labelLen == 0 then None else BlockAfterLabel(s, i, i + labelLen)
  }

  /** The rest of a labelled-code match whose label ends at `a`: whitespace, a newline and the run after it. */
  function BlockAfterLabel(s: string, i: nat, a: nat): (r: Option<Hit>)
    requires i < a <= |s|
    ensures r.Some? ==> r.value.start == i < r.value.end <= |s| && r.value.group2 == ""
  {
    match BlockNewline(s, a, RunEnd(s, a, IsSpace))
    case None => None
    case Some(n) =>
      var e := IndentedRunEnd(s, n + 1);
      Some(Hit(i, e, s[n + 1..e], ""))
  }

  /**
   * `s[p..e)` is a run of indented lines that cannot be extended: every line that starts
   * inside it opens with a blank and has more on it, and a non-empty run stops only at the
   * end of the text or after a newline before a line that does not.
   */
  predicate IsIndentedRun(s: string, p: nat, e: nat) {
    && p <= e <= |s|
    && (forall k {:trigger OpensIndentedLine(s, k)} :: p <= k < e && (k == p || s[k - 1] == '\n') ==> OpensIndentedLine(s, k))
    && (p < e ==> e == |s| || (s[e - 1] == '\n' && !OpensIndentedLine(s, e)))
  }

  /** The run of indented lines from `p` is the one `IndentedRunEnd` measures. */
  lemma {:induction false} IndentedRunShape(s: string, p: nat)
    requires p <= |s|
    ensures IsIndentedRun(s, p, IndentedRunEnd(s, p))
    decreases |s| - p
  {
    if OpensIndentedLine(s, p) {
      var lineEnd := RunEnd(s, p, NotNewline);
      if lineEnd < |s| {
        IndentedRunShape(s, lineEnd + 1);
      }
    }
  }

  /** The newline `n` that no later newline before `hi` beats is the one `BlockNewline` picks. */
  lemma {:induction false} BlockNewlineIs(s: string, lo: nat, hi: nat, n: nat)
    requires lo <= n < hi <= |s| && NewlineOpensBlock(s, n)
    requires forall m :: n < m < hi ==> !NewlineOpensBlock(s, m)
    ensures BlockNewline(s, lo, hi) == Some(n)
    decreases hi - lo
  {
    if hi - 1 != n {
      BlockNewlineIs(s, lo, hi - 1, n);
    }
  }

  /** The newline `BlockNewline` picks after a label ending at `a` starts the run the match captures. */
  lemma BlockAfterLabelIs(s: string, i: nat, a: nat, n: nat)
    requires i < a <= |s| && BlockNewline(s, a, RunEnd(s, a, IsSpace)) == Some(n)
    ensures BlockAfterLabel(s, i, a) == Some(Hit(i, IndentedRunEnd(s, n + 1), s[n + 1..IndentedRunEnd(s, n + 1)], ""))
  { }

  /** After a label, the newline `BlockNewline` picks makes the match of the run after it. */
  lemma LabelledCodeFrom(s: string, i: nat, a: nat, n: nat)
    requires i <= |s| && LabelLength(s, i) > 0 && a == i + LabelLength(s, i)
    requires BlockNewline(s, a, RunEnd(s, a, IsSpace)) == Some(n)
    ensures LabelledCodeAt(s, i) == Some(Hit(i, IndentedRunEnd(s, n + 1), s[n + 1..IndentedRunEnd(s, n + 1)], ""))
  {
    BlockAfterLabelIs(s, i, a, n);
    assert LabelledCodeAt(s, i) == BlockAfterLabel(s, i, a);
  }

  /** A labelled-code match is the label, the newline `BlockNewline` picks and the run after it. */
  lemma LabelledCodeSplit(s: string, i: nat) returns (a: nat, n: nat)
    requires i <= |s| && LabelledCodeAt(s, i).Some?
    ensures a == i + LabelLength(s, i) && i < a
    ensures BlockNewline(s, a, RunEnd(s, a, IsSpace)) == Some(n)
    ensures LabelledCodeAt(s, i) == Some(Hit(i, IndentedRunEnd(s, n + 1), s[n + 1..IndentedRunEnd(s, n + 1)], ""))
  {
    a := i + LabelLength(s, i);
    n := BlockNewline(s, a, RunEnd(s, a, IsSpace)).value;
    LabelledCodeFrom(s, i, a, n);
  }

  /** The newline `BlockNewline` picks in the whitespace from `a` ends that whitespace's blanks and is the last to open a block. */
  lemma LabelNewlineShape(s: string, a: nat, n: nat)
    requires a <= |s| && BlockNewline(s, a, RunEnd(s, a, IsSpace)) == Some(n)
    ensures a <= n < |s| && s[n] == '\n' && OpensIndentedLine(s, n + 1)
    ensures forall m {:trigger IsSpace(s[m])} :: a <= m < n ==> IsSpace(s[m])
    ensures forall m :: n < m < RunEnd(s, a, IsSpace) ==> !NewlineOpensBlock(s, m)
  {
    BlockNewlineLatest(s, a, RunEnd(s, a, IsSpace));
  }

  /**
   * A labelled-code match is a label, whitespace ending on a newline, and the captured run
   * of indented lines after it; the newline is the last one in that whitespace that an
   * indented line follows.
   */
  lemma LabelledCodeShape(s: string, i: nat) returns (a: nat, n: nat, h: Hit)
    requires i <= |s| && LabelledCodeAt(s, i).Some?
    ensures LabelledCodeAt(s, i) == Some(h) && a == i + LabelLength(s, i)
    ensures i < a <= n < h.end <= |s| && s[i..a] in {"Code:", "Executing code:", "Running code:"}
    ensures (forall m {:trigger IsSpace(s[m])} :: a <= m < n ==> IsSpace(s[m])) && s[n] == '\n'
    ensures forall m :: n < m < RunEnd(s, a, IsSpace) ==> !NewlineOpensBlock(s, m)
    ensures h.group1 == s[n + 1..h.end] && OpensIndentedLine(s, n + 1)
    ensures h.end == IndentedRunEnd(s, n + 1) && IsIndentedRun(s, n + 1, IndentedRunEnd(s, n + 1))
  {
    a, n := LabelledCodeSplit(s, i);
    LabelLengthSpelled(s, i, a);
    LabelNewlineShape(s, a, n);
    var e := IndentedRunEnd(s, n + 1);
    IndentedRunShape(s, n + 1);
    h := Hit(i, e, s[n + 1..e], "");
  }

  /**
   * Conversely, a label followed by whitespace whose last newline before an indented line
   * is at `n` makes the match that captures the run of indented lines after `n`.
   */
  lemma LabelledCodeFound(s: string, i: nat, n: nat)
    requires LabelLength(s, i) > 0 && i + LabelLength(s, i) <= n < |s|
    requires (forall m {:trigger IsSpace(s[m])} :: i + LabelLength(s, i) <= m < n ==> IsSpace(s[m])) && s[n] == '\n'
    requires OpensIndentedLine(s, n + 1)
    requires forall m :: n < m < RunEnd(s, i + LabelLength(s, i), IsSpace) ==> !NewlineOpensBlock(s, m)
    ensures LabelledCodeAt(s, i) == Some(Hit(i, IndentedRunEnd(s, n + 1), s[n + 1..IndentedRunEnd(s, n + 1)], ""))
  {
    var a := i + LabelLength(s, i);
    var b := RunEnd(s, a, IsSpace);
    assert n < b;
    BlockNewlineIs(s, a, b, n);
    LabelledCodeFrom(s, i, a, n);
  }

  /**
   * The length of the first word of `words` (tried in list order, as an alternation is)
   * that occurs at `j` ignoring case, or 0 when none does.
   */
  function FirstWordAt(s: string, j: nat, words: seq<string>): (n: nat)
    ensures n > 0 ==> j + n <= |s|
    decreases |words|
  {
    if words == [] then 0
    else if |words[0]| > 0 && StartsAtFolded(s, j, words[0]) then |words[0]|
    else FirstWordAt(s, j, words[1..])
  }

  /** The text the alternation settles on lower-cases to one of the words. */
  lemma {:induction false} FirstWordSpelled(s: string, j: nat, words: seq<string>)
    ensures var n := FirstWordAt(s, j, words);
      n > 0 ==> IsOneOf(Lower(s[j..j + n]), words)
    decreases |words|
  {
    if words != [] && !(|words[0]| > 0 && StartsAtFolded(s, j, words[0])) {
      FirstWordSpelled(s, j, words[1..]);
    }
  }

  /** The words are non-empty and no two of them begin with the same letter. */
  predicate DistinctInitials(words: seq<string>) {
    && (forall a :: 0 <= a < |words| ==> |words[a]| > 0)
    && (forall a, b :: 0 <= a < b < |words| ==> words[a][0] != words[b][0])
  }

  /**
   * When the words differ in their first letters, the text at `j` that lower-cases to one
   * of them is the word the alternation settles on, whatever the list order.
   */
  lemma {:induction false} FirstWordFound(s: string, j: nat, words: seq<string>, n: nat)
    requires DistinctInitials(words)
    requires j + n <= |s| && IsOneOf(Lower(s[j..j + n]), words)
    ensures FirstWordAt(s, j, words) == n
    decreases |words|
  {
    var x := Lower(s[j..j + n]);
    if x != words[0] {
      IsOneOfIsMembership(x, words[1..]);
      var k :| 0 <= k < |words[1..]| && words[1..][k] == x;
      assert words[k + 1] == x && n > 0;
      if |words[0]| > 0 && StartsAtFolded(s, j, words[0]) {
        assert false;
      }
      assert DistinctInitials(words[1..]) by {
        assert forall a :: 0 <= a < |words[1..]| ==> words[1..][a] == words[a + 1];
      }
      FirstWordFound(s, j, words[1..], n);
    }
  }

  /** The length of the image extension word at `j`, or 0. */
  function ExtensionAt(s: string, j: nat): (n: nat)
    ensures n > 0 ==> j + n <= |s|
  {
    FirstWordAt(s, j, ImageExtensionWords)
  }

  /** The text `ExtensionAt` measures lower-cases to an image extension word. */
  lemma ExtensionSpelled(s: string, j: nat)
    ensures var n := ExtensionAt(s, j);
      n > 0 ==> IsExtensionWord(Lower(s[j..j + n]))
  {
    FirstWordSpelled(s, j, ImageExtensionWords);
  }

  /** A dot at `k` followed by an image extension word. */
  predicate DotBeforeExtension(s: string, k: nat) {
    k < |s| && s[k] == '.' && ExtensionAt(s, k + 1) > 0
  }

  /**
   * The dot the path pattern settles on inside the non-blank run `s[lo..hi)`: the last
   * dot, after at least one character, that an image extension follows. The greedy run
   * before the dot is shortened one character at a time, so the latest such dot wins.
   */
  function ExtensionDot(s: string, lo: nat, hi: nat): (r: Option<nat>)
    requires lo < hi <= |s|
    ensures r.Some? ==> lo < r.value < hi && DotBeforeExtension(s, r.value)
    decreases hi
  {
    if hi - 1 <= lo then None
    else if DotBeforeExtension(s, hi - 1) then Some(hi - 1)
    else ExtensionDot(s, lo, hi - 1)
  }

  /** No dot after the one `ExtensionDot` picks, and none at all when it picks none, is followed by an extension word. */
  lemma {:induction false} ExtensionDotLatest(s: string, lo: nat, hi: nat)
    requires lo < hi <= |s|
    ensures ExtensionDot(s, lo, hi).Some? ==> forall k :: ExtensionDot(s, lo, hi).value < k < hi ==> !DotBeforeExtension(s, k)
    ensures ExtensionDot(s, lo, hi).None? ==> forall k :: lo < k < hi ==> !DotBeforeExtension(s, k)
    decreases hi
  {
    if hi - 1 > lo && !DotBeforeExtension(s, hi - 1) {
      ExtensionDotLatest(s, lo, hi - 1);
      var r := ExtensionDot(s, lo, hi - 1);
      assert ExtensionDot(s, lo, hi) == r;
      var from := if r.Some? then r.value else lo;
      forall k | from < k < hi
        ensures !DotBeforeExtension(s, k)
      {
        if k < hi - 1 {
          assert from < k < hi - 1;
        }
      }
    }
  }

  /** The latest dot in `(lo, hi)` that an extension word follows is the one `ExtensionDot` picks. */
  lemma {:induction false} ExtensionDotIs(s: string, lo: nat, hi: nat, k: nat)
    requires lo < k < hi <= |s| && DotBeforeExtension(s, k)
    requires forall m :: k < m < hi ==> !DotBeforeExtension(s, m)
    ensures ExtensionDot(s, lo, hi) == Some(k)
    decreases hi
  {
    if hi - 1 != k {
      ExtensionDotIs(s, lo, hi - 1, k);
    }
  }

  /** A string that lower-cases to an extension word consists of ASCII letters. */
  lemma ExtensionIsLetters(x: string)
    requires IsExtensionWord(Lower(x))
    ensures forall k :: 0 <= k < |x| ==> IsAsciiLetter(x[k])
  {
    assert forall i :: 0 <= i < |ImageExtensionWords| ==> IsLowerWord(ImageExtensionWords[i]);
    OneOfLowerWords(Lower(x), ImageExtensionWords);
  }

  /** `g` is a stem of at least one character, a dot and the non-empty word `x`. */
  predicate EndsWithDotWord(g: string, x: string) {
    && |x| > 0
    && |g| >= |x| + 2
    && g[|g| - |x| - 1] == '.'
    && g[|g| - |x|..] == x
  }

  lemma SplitAtDot(s: string, i: nat, k: nat, n: nat)
    requires i < k && k + 1 + n <= |s| && s[k] == '.' && n > 0
    ensures EndsWithDotWord(s[i..k + 1 + n], s[k + 1..k + 1 + n])
  {
  }

  /** The match of the path pattern that starts at `i` and settles on the dot at `k`. */
  function ImageHit(s: string, i: nat, k: nat): (h: Hit)
    requires i < k && DotBeforeExtension(s, k)
    ensures h.start == i < h.end <= |s|
    ensures h.group1 == s[i..h.end]
    ensures EndsWithDotWord(h.group1, h.group2)
  {
    var n := ExtensionAt(s, k + 1);
    SplitAtDot(s, i, k, n);
    Hit(i, k + 1 + n, s[i..k + 1 + n], s[k + 1..k + 1 + n])
  }

  /** The word a path match captures after its dot is an extension word, in ASCII letters. */
  lemma ImageHitWord(s: string, i: nat, k: nat)
    requires i < k && DotBeforeExtension(s, k)
    ensures var h := ImageHit(s, i, k);
      IsExtensionWord(Lower(h.group2)) && forall m :: 0 <= m < |h.group2| ==> IsAsciiLetter(h.group2[m])
  {
    ExtensionSpelled(s, k + 1);
    ExtensionIsLetters(s[k + 1..k + 1 + ExtensionAt(s, k + 1)]);
  }

  /**
   * An image path at `i`: at least one non-blank character, a dot and an extension word.
   * The first group is the whole match; the second is the extension word as written.
   */
  function ImagePathAt(s: string, i: nat): (r: Option<Hit>)
    requires i <= |s|
    ensures r.Some? ==> r.value.start == i < r.value.end <= |s|
    ensures r.Some? ==> r.value.group1 == s[i..r.value.end]
    ensures r.Some? ==> EndsWithDotWord(r.value.group1, r.value.group2)
  {
    var e := RunEnd(s, i, NotSpace);
    if e == i then None
    else
      match ExtensionDot(s, i, e)
      case None => None
      case Some(k) => Some(ImageHit(s, i, k))
  }

  /** An image-path match captures an image extension word, in any case, written in ASCII letters. */
  lemma ImagePathWord(s: string, i: nat)
    requires i <= |s| && ImagePathAt(s, i).Some?
    ensures var h := ImagePathAt(s, i).value;
      IsExtensionWord(Lower(h.group2)) && forall m :: 0 <= m < |h.group2| ==> IsAsciiLetter(h.group2[m])
  {
    var e := RunEnd(s, i, NotSpace);
    ImageHitWord(s, i, ExtensionDot(s, i, e).value);
  }

  /** The match of the path pattern ends the extension word after its dot and captures that word. */
  lemma ImageHitEnd(s: string, i: nat, k: nat)
    requires i < k && DotBeforeExtension(s, k)
    ensures var h := ImageHit(s, i, k);
      h.end == k + 1 + ExtensionAt(s, k + 1) && h.group2 == s[k + 1..h.end]
  { }

  /** The extension word is made of letters, so a match from inside a non-blank run ends within it. */
  lemma ImageHitInRun(s: string, i: nat, k: nat, e: nat)
    requires i < k < e <= |s| && DotBeforeExtension(s, k) && (e == |s| || IsSpace(s[e]))
    ensures ImageHit(s, i, k).end <= e
  {
    ImageHitEnd(s, i, k);
    ImageHitWord(s, i, k);
  }

  /** Inside a non-blank run from `i`, the dot `ExtensionDot` picks makes the match. */
  lemma ImagePathFrom(s: string, i: nat, e: nat, k: nat)
    requires i <= |s| && i < e == RunEnd(s, i, NotSpace) && ExtensionDot(s, i, e) == Some(k)
    ensures ImagePathAt(s, i) == Some(ImageHit(s, i, k))
  { }

  /**
   * An image-path match lies inside the run of non-blank characters from `i`; it ends with
   * the last dot of that run followed by an extension word, and with the first extension
   * word, in list order, written there.
   */
  lemma ImagePathShape(s: string, i: nat) returns (e: nat, k: nat, h: Hit)
    requires i <= |s| && ImagePathAt(s, i).Some?
    ensures ImagePathAt(s, i) == Some(h)
    ensures i < k < h.end <= e <= |s|
    ensures (forall m {:trigger IsSpace(s[m])} :: i <= m < e ==> !IsSpace(s[m])) && (e == |s| || IsSpace(s[e]))
    ensures s[k] == '.' && h.group2 == s[k + 1..h.end] && ExtensionAt(s, k + 1) == |h.group2|
    ensures forall m :: k < m < e ==> !DotBeforeExtension(s, m)
  {
    e := RunEnd(s, i, NotSpace);
    k := ExtensionDot(s, i, e).value;
    ExtensionDotLatest(s, i, e);
    ImagePathFrom(s, i, e, k);
    ImageHitEnd(s, i, k);
    h := ImageHit(s, i, k);
    ImageHitInRun(s, i, k, e);
  }

  /** Conversely, the last dot of the non-blank run that an extension word follows fixes the match. */
  lemma ImagePathFound(s: string, i: nat, e: nat, k: nat)
    requires i < k < e <= |s|
    requires (forall m {:trigger IsSpace(s[m])} :: i <= m < e ==> !IsSpace(s[m])) && (e == |s| || IsSpace(s[e]))
    requires DotBeforeExtension(s, k) && forall m :: k < m < e ==> !DotBeforeExtension(s, m)
    ensures ImagePathAt(s, i) == Some(ImageHit(s, i, k))
  {
    RunEndIs(s, i, NotSpace, e);
    ExtensionDotIs(s, i, e, k);
    ImagePathFrom(s, i, e, k);
  }

  /**
   * A base64 data URI at `i`: the literal prefix, a non-empty format running up to the
   * first semicolon, the literal `;base64,` and the longest non-empty run of base64
   * characters. Giving back format characters would put a non-semicolon where the
   * semicolon must be, so the first semicolon is the only candidate.
   */
  function DataUriAt(s: string, i: nat): (r: Option<Hit>)
    requires i <= |s|
    ensures r.Some? ==> r.value.start == i < r.value.end <= |s|
    ensures r.Some? ==> |r.value.group1| > 0 && ';' !in r.value.group1
    ensures r.Some? ==> |r.value.group2| > 0 && forall k :: 0 <= k < |r.value.group2| ==> IsBase64Char(r.value.group2[k])
  {
    if !StartsAt(s, i, "data:image/") then None
    else
      var a := i + 11;
      var q := RunEnd(s, a, NotSemicolon);
      if q == a || !StartsAt(s, q, ";base64,") then None
      else
        var b := q + 8;
        var e := RunEnd(s, b, IsBase64Char);
        if e == b then None
        else
          assert forall k :: 0 <= k < |s[a..q]| ==> s[a..q][k] != ';';
          Some(Hit(i, e, s[a..q], s[b..e]))
  }

  /** The text from `i` to `e` spelled out around the `;base64,` at `q`. */
  lemma DataUriSpelling(s: string, i: nat, q: nat, e: nat)
    requires i + 11 <= q && q + 8 <= e <= |s|
    requires s[i..i + 11] == "data:image/" && s[q..q + 8] == ";base64,"
    ensures s[i..e] == "data:image/" + s[i + 11..q] + ";base64," + s[q + 8..e]
  {
    SliceSplit(s, i, q + 8, e);
    SliceSplit(s, i, q, q + 8);
    SliceSplit(s, i, i + 11, q);
  }

  /**
   * A data-URI match is the prefix, its format, `;base64,` and its payload, which runs as
   * far as base64 characters go.
   */
  lemma DataUriShape(s: string, i: nat) returns (q: nat)
    requires i <= |s| && DataUriAt(s, i).Some?
    ensures var h := DataUriAt(s, i).value;
      && i + 11 < q && q + 8 < h.end
      && h.group1 == s[i + 11..q] && h.group2 == s[q + 8..h.end]
      && (h.end == |s| || !IsBase64Char(s[h.end]))
      && s[i..h.end] == "data:image/" + h.group1 + ";base64," + h.group2
  {
    q := RunEnd(s, i + 11, NotSemicolon);
    DataUriSpelling(s, i, q, DataUriAt(s, i).value.end);
  }

  /**
   * Conversely, the prefix, a non-empty format without semicolons, `;base64,` and the
   * longest non-empty run of base64 characters make exactly that match.
   */
  lemma DataUriFound(s: string, i: nat, q: nat, e: nat)
    requires i + 11 < q && q + 8 < e <= |s|
    requires StartsAt(s, i, "data:image/") && StartsAt(s, q, ";base64,")
    requires forall k :: i + 11 <= k < q ==> s[k] != ';'
    requires forall k :: q + 8 <= k < e ==> IsBase64Char(s[k])
    requires e == |s| || !IsBase64Char(s[e])
    ensures DataUriAt(s, i) == Some(Hit(i, e, s[i + 11..q], s[q + 8..e]))
  {
    assert s[q] == ';';
    RunEndIs(s, i + 11, NotSemicolon, q);
    RunEndIs(s, q + 8, IsBase64Char, e);
  }

  /** The length of the direction word at `j`, or 0. */
  function DirectionWordAt(s: string, j: nat): (n: nat)
    ensures n > 0 ==> j + n <= |s|
  {
    FirstWordAt(s, j, DirectionWords)
  }

  /** The text `DirectionWordAt` measures lower-cases to a direction word. */
  lemma DirectionWordSpelled(s: string, j: nat)
    ensures var n := DirectionWordAt(s, j);
      n > 0 ==> IsDirectionWord(Lower(s[j..j + n]))
  {
    FirstWordSpelled(s, j, DirectionWords);
  }

  /** After `ARROW_COMMAND:` at `i`, whitespace and `room=`, ignoring case: where the room name starts. */
  function RoomClauseAt(s: string, i: nat): (r: Option<nat>)
    requires i <= |s|
    ensures r.Some? ==> i < r.value <= |s|
  {
    if !StartsAtFolded(s, i, "arrow_command:") then None
    else
      var a := RunEnd(s, i + 14, IsSpace);
      if !StartsAtFolded(s, a, "room=") then None
      else Some(a + 5)
  }

  /** From `j`, whitespace, `direction=` and a direction word, ignoring case: where the word starts. */
  function DirectionClauseAt(s: string, j: nat): (r: Option<nat>)
    requires j <= |s|
    ensures r.Some? ==> j < r.value && DirectionWordAt(s, r.value) > 0
  {
    var d := RunEnd(s, j, IsSpace);
    if !StartsAtFolded(s, d, "direction=") then None
    else if DirectionWordAt(s, d + 10) == 0 then None
    else Some(d + 10)
  }

  /** The match of an arrow marker whose room name is `s[nameStart..comma]` and whose direction word is `s[v..v + n]`. */
  function ArrowHit(s: string, i: nat, nameStart: nat, comma: nat, v: nat, n: nat): (h: Hit)
    requires i < nameStart < comma < v && 0 < n && DirectionWordAt(s, v) == n
    requires forall k :: nameStart <= k < comma ==> s[k] != ','
    ensures h.start == i < h.end <= |s|
    ensures |h.group1| > 0 && ',' !in h.group1
    ensures h.end == v + n && h.group2 == s[v..h.end]
  {
    assert forall k :: 0 <= k < comma - nameStart ==> s[nameStart..comma][k] == s[nameStart + k];
    Hit(i, v + n, s[nameStart..comma], s[v..v + n])
  }

  /** The arrow match whose room name is `s[nameStart..comma]`, if a direction clause follows the comma. */
  function ArrowAfterComma(s: string, i: nat, nameStart: nat, comma: nat): (r: Option<Hit>)
    requires i < nameStart < comma < |s| && s[comma] == ','
    requires forall k :: nameStart <= k < comma ==> s[k] != ','
    ensures r.Some? <==> DirectionClauseAt(s, comma + 1).Some?
    ensures r.Some? ==> var v := DirectionClauseAt(s, comma + 1).value;
      r.value == ArrowHit(s, i, nameStart, comma, v, DirectionWordAt(s, v))
  {
    match DirectionClauseAt(s, comma + 1)
    case None => None
    case Some(v) => Some(ArrowHit(s, i, nameStart, comma, v, DirectionWordAt(s, v)))
  }

  /**
   * An arrow marker at `i`, ignoring case: `ARROW_COMMAND:`, whitespace, `room=`, a
   * non-empty room name running up to the first comma, the comma, whitespace,
   * `direction=` and one of the four direction words. Shortening the room name would
   * put a non-comma where the comma must be, and shortening a whitespace run would put
   * whitespace where a letter must be, so no backtracking can produce another match.
   */
  function ArrowCommandAt(s: string, i: nat): (r: Option<Hit>)
    requires i <= |s|
    ensures r.Some? ==> r.value.start == i < r.value.end <= |s|
    ensures r.Some? ==> |r.value.group1| > 0 && ',' !in r.value.group1
  {
    match RoomClauseAt(s, i)
    case None => None
    case Some(nameStart) =>
      var comma := RunEnd(s, nameStart, NotComma);
      if comma == nameStart || comma == |s| then None
      else ArrowAfterComma(s, i, nameStart, comma)
  }

  /** The room clause at `i`: the marker, whitespace and `room=`, ignoring case. */
  lemma RoomClauseShape(s: string, i: nat) returns (a: nat)
    requires i <= |s| && RoomClauseAt(s, i).Some?
    ensures StartsAtFolded(s, i, "arrow_command:") && i + 14 <= a && RoomClauseAt(s, i).value == a + 5
    ensures StartsAtFolded(s, a, "room=") && (forall k {:trigger IsSpace(s[k])} :: i + 14 <= k < a ==> IsSpace(s[k]))
  {
    a := RunEnd(s, i + 14, IsSpace);
  }

  /** Blanks from `j` up to a literal, read ignoring case, that does not open with a blank end there. */
  lemma BlanksBefore(s: string, j: nat, d: nat, lit: string)
    requires |lit| > 0 && !IsSpace(lit[0])
    requires j <= d && StartsAtFolded(s, d, lit) && (forall k {:trigger IsSpace(s[k])} :: j <= k < d ==> IsSpace(s[k]))
    ensures RunEnd(s, j, IsSpace) == d
  {
    assert Lower(s[d..d + |lit|])[0] == LowerChar(s[d]);
    RunEndIs(s, j, IsSpace, d);
  }

  /** A direction word written from `v` to `e` is the one the alternation settles on there. */
  lemma DirectionWordFound(s: string, v: nat, e: nat)
    requires v < e <= |s| && IsDirectionWord(Lower(s[v..e]))
    ensures DirectionWordAt(s, v) == e - v
  {
    assert DistinctInitials(DirectionWords);
    FirstWordFound(s, v, DirectionWords, e - v);
  }

  /** Conversely, the marker, whitespace and `room=` make the room clause. */
  lemma RoomClauseFound(s: string, i: nat, a: nat)
    requires StartsAtFolded(s, i, "arrow_command:") && i + 14 <= a
    requires StartsAtFolded(s, a, "room=") && (forall k {:trigger IsSpace(s[k])} :: i + 14 <= k < a ==> IsSpace(s[k]))
    ensures RunEnd(s, i + 14, IsSpace) == a && RoomClauseAt(s, i) == Some(a + 5)
  {
    BlanksBefore(s, i + 14, a, "room=");
  }

  /** The direction clause at `j`: whitespace, `direction=` and a direction word, ignoring case. */
  lemma DirectionClauseShape(s: string, j: nat) returns (d: nat)
    requires j <= |s| && DirectionClauseAt(s, j).Some?
    ensures j <= d && StartsAtFolded(s, d, "direction=") && (forall k {:trigger IsSpace(s[k])} :: j <= k < d ==> IsSpace(s[k]))
    ensures DirectionClauseAt(s, j).value == d + 10 && DirectionWordAt(s, d + 10) > 0
  {
    d := RunEnd(s, j, IsSpace);
  }

  /** Conversely, whitespace, `direction=` and a direction word make the direction clause. */
  lemma DirectionClauseFound(s: string, j: nat, d: nat, e: nat)
    requires j <= d && StartsAtFolded(s, d, "direction=") && (forall k {:trigger IsSpace(s[k])} :: j <= k < d ==> IsSpace(s[k]))
    requires d + 10 < e <= |s| && IsDirectionWord(Lower(s[d + 10..e]))
    ensures RunEnd(s, j, IsSpace) == d
    ensures DirectionClauseAt(s, j) == Some(d + 10) && DirectionWordAt(s, d + 10) == e - (d + 10)
  {
    BlanksBefore(s, j, d, "direction=");
    DirectionWordFound(s, d + 10, e);
  }

  /**
   * After the room name, a match holds the name, and the direction clause after the comma
   * (whitespace and `direction=` from `d`) is followed by the direction word it captures.
   */
  lemma ArrowAfterCommaShape(s: string, i: nat, nameStart: nat, comma: nat) returns (d: nat)
    requires i < nameStart < comma < |s| && s[comma] == ','
    requires forall k :: nameStart <= k < comma ==> s[k] != ','
    requires ArrowAfterComma(s, i, nameStart, comma).Some?
    ensures comma < d <= |s| && StartsAtFolded(s, d, "direction=") && (forall k {:trigger IsSpace(s[k])} :: comma + 1 <= k < d ==> IsSpace(s[k]))
    ensures var h := ArrowAfterComma(s, i, nameStart, comma).value;
      h.group1 == s[nameStart..comma] && d + 10 < h.end && h.group2 == s[d + 10..h.end]
  {
    ArrowAfterCommaParts(s, i, nameStart, comma);
    d := DirectionClauseShape(s, comma + 1);
  }

  /** A match after the comma holds the room name and the word its direction clause captures. */
  lemma ArrowAfterCommaParts(s: string, i: nat, nameStart: nat, comma: nat)
    requires i < nameStart < comma < |s| && s[comma] == ','
    requires forall k :: nameStart <= k < comma ==> s[k] != ','
    requires ArrowAfterComma(s, i, nameStart, comma).Some?
    ensures DirectionClauseAt(s, comma + 1).Some?
    ensures var v := DirectionClauseAt(s, comma + 1).value; var h := ArrowAfterComma(s, i, nameStart, comma).value;
      h.group1 == s[nameStart..comma] && v < h.end && h.group2 == s[v..h.end]
  { }

  /** A marker match is the room clause followed by what `ArrowAfterComma` makes of the rest. */
  lemma ArrowCommandSplit(s: string, i: nat) returns (nameStart: nat, comma: nat)
    requires i <= |s| && ArrowCommandAt(s, i).Some?
    ensures RoomClauseAt(s, i) == Some(nameStart) && comma == RunEnd(s, nameStart, NotComma)
    ensures i < nameStart < comma < |s| && s[comma] == ','
    ensures forall k :: nameStart <= k < comma ==> s[k] != ','
    ensures ArrowCommandAt(s, i) == ArrowAfterComma(s, i, nameStart, comma)
  {
    nameStart := RoomClauseAt(s, i).value;
    comma := RunEnd(s, nameStart, NotComma);
  }

  /**
   * An arrow-marker match spells, ignoring case, `arrow_command:`, whitespace, `room=`, the
   * room name up to the first comma, the comma, whitespace, `direction=` and the direction
   * word it captures.
   */
  lemma ArrowCommandShape(s: string, i: nat) returns (a: nat, comma: nat, d: nat)
    requires i <= |s| && ArrowCommandAt(s, i).Some?
    ensures StartsAtFolded(s, i, "arrow_command:") && i + 14 <= a
    ensures StartsAtFolded(s, a, "room=") && (forall k {:trigger IsSpace(s[k])} :: i + 14 <= k < a ==> IsSpace(s[k]))
    ensures a + 5 < comma < d <= |s| && s[comma] == ','
    ensures StartsAtFolded(s, d, "direction=") && (forall k {:trigger IsSpace(s[k])} :: comma + 1 <= k < d ==> IsSpace(s[k]))
    ensures var h := ArrowCommandAt(s, i).value;
      h.group1 == s[a + 5..comma] && d + 10 < h.end && h.group2 == s[d + 10..h.end]
  {
    var nameStart;
    a := RoomClauseShape(s, i);
    nameStart, comma, d := ArrowAfterRoomShape(s, i);
  }

  /** A marker match is the room clause, then the name up to the comma and the direction clause after it. */
  lemma ArrowAfterRoomShape(s: string, i: nat) returns (nameStart: nat, comma: nat, d: nat)
    requires i <= |s| && ArrowCommandAt(s, i).Some?
    ensures RoomClauseAt(s, i) == Some(nameStart) && nameStart < comma < d <= |s| && s[comma] == ','
    ensures StartsAtFolded(s, d, "direction=") && (forall k {:trigger IsSpace(s[k])} :: comma + 1 <= k < d ==> IsSpace(s[k]))
    ensures var h := ArrowCommandAt(s, i).value;
      h.group1 == s[nameStart..comma] && d + 10 < h.end && h.group2 == s[d + 10..h.end]
  {
    nameStart, comma := ArrowCommandSplit(s, i);
    d := ArrowAfterCommaShape(s, i, nameStart, comma);
  }

  /** The direction word an arrow-marker match captures is one of the four, up to case. */
  lemma ArrowCommandWord(s: string, i: nat)
    requires i <= |s| && ArrowCommandAt(s, i).Some?
    ensures IsDirectionWord(Lower(ArrowCommandAt(s, i).value.group2))
  {
    var nameStart, comma := ArrowCommandSplit(s, i);
    ArrowAfterCommaWord(s, i, nameStart, comma);
  }

  /** After the comma, the captured direction word is one of the four, up to case. */
  lemma ArrowAfterCommaWord(s: string, i: nat, nameStart: nat, comma: nat)
    requires i < nameStart < comma < |s| && s[comma] == ','
    requires forall k :: nameStart <= k < comma ==> s[k] != ','
    requires ArrowAfterComma(s, i, nameStart, comma).Some?
    ensures IsDirectionWord(Lower(ArrowAfterComma(s, i, nameStart, comma).value.group2))
  {
    var v := DirectionClauseAt(s, comma + 1).value;
    DirectionWordSpelled(s, v);
  }

  /**
   * Conversely, that spelling, with a room name free of commas and a direction word, makes
   * exactly the match of that name and word.
   */
  lemma ArrowCommandFound(s: string, i: nat, a: nat, comma: nat, d: nat, e: nat)
    requires StartsAtFolded(s, i, "arrow_command:") && i + 14 <= a
    requires StartsAtFolded(s, a, "room=") && (forall k {:trigger IsSpace(s[k])} :: i + 14 <= k < a ==> IsSpace(s[k]))
    requires a + 5 < comma < d && d + 10 < e <= |s| && s[comma] == ','
    requires forall k :: a + 5 <= k < comma ==> s[k] != ','
    requires forall k {:trigger IsSpace(s[k])} :: comma + 1 <= k < d ==> IsSpace(s[k])
    requires StartsAtFolded(s, d, "direction=") && IsDirectionWord(Lower(s[d + 10..e]))
    ensures ArrowCommandAt(s, i) == Some(Hit(i, e, s[a + 5..comma], s[d + 10..e]))
  {
    RoomClauseFound(s, i, a);
    ArrowAfterRoomFound(s, i, a + 5, comma, d, e);
  }

  /** After the room clause, a comma-free name, the comma and a direction clause make the match. */
  lemma ArrowAfterRoomFound(s: string, i: nat, nameStart: nat, comma: nat, d: nat, e: nat)
    requires i <= |s| && RoomClauseAt(s, i) == Some(nameStart)
    requires nameStart < comma < d && d + 10 < e <= |s| && s[comma] == ','
    requires forall k :: nameStart <= k < comma ==> s[k] != ','
    requires forall k {:trigger IsSpace(s[k])} :: comma + 1 <= k < d ==> IsSpace(s[k])
    requires StartsAtFolded(s, d, "direction=") && IsDirectionWord(Lower(s[d + 10..e]))
    ensures ArrowCommandAt(s, i) == Some(Hit(i, e, s[nameStart..comma], s[d + 10..e]))
  {
    RunEndIs(s, nameStart, NotComma, comma);
    ArrowCommandViaComma(s, i, nameStart, comma);
    ArrowAfterCommaFound(s, i, nameStart, comma, d, e);
  }

  /** Once the room clause and the comma after the name are fixed, the match is what follows the comma. */
  lemma ArrowCommandViaComma(s: string, i: nat, nameStart: nat, comma: nat)
    requires i <= |s| && RoomClauseAt(s, i) == Some(nameStart) && RunEnd(s, nameStart, NotComma) == comma
    requires nameStart < comma < |s|
    ensures s[comma] == ',' && forall k :: nameStart <= k < comma ==> s[k] != ','
    ensures ArrowCommandAt(s, i) == ArrowAfterComma(s, i, nameStart, comma)
  { }

  /** After the comma, whitespace, `direction=` and a direction word make the match of that name and word. */
  lemma ArrowAfterCommaFound(s: string, i: nat, nameStart: nat, comma: nat, d: nat, e: nat)
    requires i < nameStart < comma < d && d + 10 < e <= |s| && s[comma] == ','
    requires forall k :: nameStart <= k < comma ==> s[k] != ','
    requires forall k {:trigger IsSpace(s[k])} :: comma + 1 <= k < d ==> IsSpace(s[k])
    requires StartsAtFolded(s, d, "direction=") && IsDirectionWord(Lower(s[d + 10..e]))
    ensures ArrowAfterComma(s, i, nameStart, comma) == Some(Hit(i, e, s[nameStart..comma], s[d + 10..e]))
  {
    DirectionClauseFound(s, comma + 1, d, e);
    ArrowAfterCommaVia(s, i, nameStart, comma, d + 10, e);
  }

  /** A direction clause whose word runs from `v` to `e` makes the match of that name and word. */
  lemma ArrowAfterCommaVia(s: string, i: nat, nameStart: nat, comma: nat, v: nat, e: nat)
    requires i < nameStart < comma < v < e <= |s| && s[comma] == ','
    requires forall k :: nameStart <= k < comma ==> s[k] != ','
    requires DirectionClauseAt(s, comma + 1) == Some(v) && DirectionWordAt(s, v) == e - v
    ensures ArrowAfterComma(s, i, nameStart, comma) == Some(Hit(i, e, s[nameStart..comma], s[v..e]))
  { }

  /** Whether, and how, pattern `p` matches `s` starting exactly at position `i`. */
  function MatchAt(p: Pattern, s: string, i: nat): (r: Option<Hit>)
    ensures r.Some? ==> r.value.start == i < r.value.end <= |s|
  {
    if i >= |s| then None
    else
      match p
      case FencedBlock => FencedBlockAt(s, i)
      case PlainFence => PlainFenceAt(s, i)
      case LabelledCode => LabelledCodeAt(s, i)
      case ImagePath => ImagePathAt(s, i)
      case DataUri => DataUriAt(s, i)
      case ArrowCommand => ArrowCommandAt(s, i)
  }

  /**
   * `m` is a matcher for a subject of length `n`: a match it reports at position `j`
   * starts at `j` and ends after it, within the subject.
   */
  ghost predicate IsMatcher(m: nat -> Option<Hit>, n: nat) {
    forall j: nat :: m(j).Some? ==> m(j).value.start == j < m(j).value.end <= n
  }

  /**
   * The left-to-right, non-overlapping search with matcher `m`: from position `i`, try
   * `m` at each position in turn; after a match, continue at its end.
   */
  function Scan(m: nat -> Option<Hit>, n: nat, i: nat): (hits: seq<Hit>)
    requires i <= n && IsMatcher(m, n)
    ensures forall k :: 0 <= k < |hits| ==> i <= hits[k].start && m(hits[k].start) == Some(hits[k])
    ensures forall k :: 0 <= k < |hits| ==> hits[k].start < hits[k].end <= n
    ensures forall k :: 0 <= k < |hits| - 1 ==> hits[k].end <= hits[k + 1].start
    decreases n - i
  {
    if i == n then []
    else
      match m(i)
      case Some(h) => [h] + Scan(m, n, h.end)
      case None => Scan(m, n, i + 1)
  }

  /** One step of `Scan`: a match at `i` is reported and the scan resumes at its end; otherwise it moves on by one. */
  lemma ScanStep(m: nat -> Option<Hit>, n: nat, i: nat)
    requires IsMatcher(m, n) && i < n
    ensures m(i).Some? ==> Scan(m, n, i) == [m(i).value] + Scan(m, n, m(i).value.end)
    ensures m(i).None? ==> Scan(m, n, i) == Scan(m, n, i + 1)
  {
  }

  /** Position `j` lies inside one of the matches. */
  predicate Covers(hits: seq<Hit>, j: nat) {
    exists k :: 0 <= k < |hits| && hits[k].start <= j < hits[k].end
  }

  lemma CoversShift(h: Hit, rest: seq<Hit>, j: nat)
    requires Covers(rest, j)
    ensures Covers([h] + rest, j)
  {
    var k :| 0 <= k < |rest| && rest[k].start <= j < rest[k].end;
    assert ([h] + rest)[k + 1] == rest[k];
  }

  /**
   * `Scan` skips no match: every position from `i` on where `m` matches lies inside one
   * of the reported matches (it starts one, or an earlier match covers it).
   */
  lemma {:induction false} ScanMissesNothing(m: nat -> Option<Hit>, n: nat, i: nat, j: nat)
    requires IsMatcher(m, n) && i <= j < n && m(j).Some?
    ensures Covers(Scan(m, n, i), j)
    decreases n - i
  {
    ScanStep(m, n, i);
    if m(i).None? {
      ScanMissesNothing(m, n, i + 1, j);
    } else if m(i).value.end <= j {
      ScanMissesNothing(m, n, m(i).value.end, j);
      CoversShift(m(i).value, Scan(m, n, m(i).value.end), j);
    } else {
      assert Scan(m, n, i)[0] == m(i).value;
    }
  }

  /** Pattern `p` as a matcher over `s`. */
  function Matcher(p: Pattern, s: string): (m: nat -> Option<Hit>)
    ensures IsMatcher(m, |s|)
    ensures forall j: nat :: m(j) == MatchAt(p, s, j)
  {
    (j: nat) => MatchAt(p, s, j)
  }

  /**
   * `re.findall`: from position `i`, try the pattern at each position in turn; after a
   * match, continue at its end, so that matches never overlap.
   */
  function FindAll(p: Pattern, s: string, i: nat): (hits: seq<Hit>)
    requires i <= |s|
    ensures forall k :: 0 <= k < |hits| ==> i <= hits[k].start && MatchAt(p, s, hits[k].start) == Some(hits[k])
    ensures forall k :: 0 <= k < |hits| ==> hits[k].start < hits[k].end <= |s|
    ensures forall k :: 0 <= k < |hits| - 1 ==> hits[k].end <= hits[k + 1].start
  {
    Scan(Matcher(p, s), |s|, i)
  }

  /**
   * `FindAll` skips no match: every position from `i` on where the pattern matches lies
   * inside one of the reported matches (it starts one, or an earlier match covers it).
   */
  lemma FindAllMissesNothing(p: Pattern, s: string, i: nat, j: nat)
    requires i <= j < |s| && MatchAt(p, s, j).Some?
    ensures Covers(FindAll(p, s, i), j)
  {
    var m := Matcher(p, s);
    assert m(j) == MatchAt(p, s, j);
    ScanMissesNothing(m, |s|, i, j);
    assert FindAll(p, s, i) == Scan(m, |s|, i);
  }

  /** In a chain of non-overlapping spans, every span ends before any later one starts. */
  lemma {:induction false} SpansChain(hits: seq<Hit>, k1: nat, k2: nat)
    requires forall k :: 0 <= k < |hits| ==> hits[k].start < hits[k].end
    requires forall k :: 0 <= k < |hits| - 1 ==> hits[k].end <= hits[k + 1].start
    requires k1 < k2 < |hits|
    ensures hits[k1].end <= hits[k2].start
    decreases k2 - k1
  {
    if k2 > k1 + 1 {
      SpansChain(hits, k1, k2 - 1);
    }
  }

  /** The reported matches start at strictly increasing positions and do not overlap. */
  lemma FindAllInOrder(p: Pattern, s: string, i: nat)
    requires i <= |s|
    ensures forall k1, k2 :: 0 <= k1 < k2 < |FindAll(p, s, i)| ==> FindAll(p, s, i)[k1].end <= FindAll(p, s, i)[k2].start
  {
    var hits := FindAll(p, s, i);
    forall k1, k2 | 0 <= k1 < k2 < |hits| ensures hits[k1].end <= hits[k2].start {
      SpansChain(hits, k1, k2);
    }
  }
}
