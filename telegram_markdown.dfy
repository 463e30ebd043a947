/**
 * The Telegram Markdown parser of `lib/utils/telegramMarkdown.tsx`: a message
 * text becomes a list of nodes (plain text, bold, italic, strikethrough,
 * spoiler, code, link), formatted nodes carrying the parse of their content.
 *
 * `Parse` is the specification, one loop pass (`Step`) at a time;
 * `ParseTelegramMarkdown` is the source's while loop, proved equal to it.
 */
module TelegramMarkdown {
  import opened Wrappers
  import opened Text

  datatype Kind = PlainText | Bold | Italic | Strikethrough | Spoiler | Code | Link

  /** `TelegramMarkdownNode`: `url` only on links, `children` only on nodes that parse their content. */
  datatype MdNode = MdNode(kind: Kind, content: string, url: Option<string>, children: Children)

  /** The `children` field: absent, or the nodes of the parsed content. */
  datatype Children = NoChildren | Children(nodes: seq<MdNode>)

  function TextNode(content: string): MdNode {
    MdNode(PlainText, content, None, NoChildren)
  }

  // ---------------------------------------------------------------- findUnescaped

  /** `text[k]` is `c` and is not preceded by a backslash. */
  predicate Unescaped(text: string, c: char, k: int) {
    0 <= k < |text| && text[k] == c && (k == 0 || text[k - 1] != '\\')
  }

  /** `findUnescaped`: the least index from `start` holding an unescaped `c`, or -1. */
  function FindUnescaped(text: string, c: char, start: nat): (r: int)
    ensures r == -1 || (start <= r && Unescaped(text, c, r))
    ensures r == -1 ==> forall k :: start <= k ==> !Unescaped(text, c, k)
    ensures r != -1 ==> forall k :: start <= k < r ==> !Unescaped(text, c, k)
    decreases |text| - start
  {
    if start >= |text| then -1
    else if Unescaped(text, c, start) then start
    else FindUnescaped(text, c, start + 1)
  }

  /** The `for` loop of `findUnescaped`. */
  method FindUnescapedLoop(text: string, c: char, start: nat) returns (r: int)
    ensures r == FindUnescaped(text, c, start)
  {
    var i := start;
    while i < |text|
      invariant start <= i
      invariant FindUnescaped(text, c, i) == FindUnescaped(text, c, start)
      decreases |text| - i
    {
      if text[i] == c && (i == 0 || text[i - 1] != '\\') {
        return i;
      }
      i := i + 1;
    }
    return -1;
  }

  // ---------------------------------------------------------------- plain text

  /** A character at which a run of plain text stops: a marker character or a `||`. */
  predicate StopsText(text: string, j: nat)
    requires j < |text|
  {
    text[j] == '*' || text[j] == '_' || text[j] == '~' || text[j] == '`' || text[j] == '['
    || (j < |text| - 1 && (OccursAt(text, "**", j) || OccursAt(text, "__", j)
                           || OccursAt(text, "~~", j) || OccursAt(text, "||", j)))
  }

  /** Where the plain-text scan from `j` stops: the first stopping character, or the end. */
  function PlainEnd(text: string, j: nat): (e: nat)
    requires j <= |text|
    ensures j <= e <= |text|
    ensures e < |text| ==> StopsText(text, e)
    ensures forall k :: j <= k < e ==> !StopsText(text, k)
    decreases |text| - j
  {
    if j == |text| || StopsText(text, j) then j else PlainEnd(text, j + 1)
  }

  /** The fallback of a loop pass: the plain text up to the next marker, or the one character at `i`. */
  function PlainStep(text: string, i: nat): (MdNode, nat)
    requires i < |text|
  {
    var e := PlainEnd(text, i);
    if e > i then (TextNode(text[i..e]), e) else (TextNode([text[i]]), i + 1)
  }

  // ---------------------------------------------------------------- the parser

  /** `parseTelegramMarkdown(text)`. */
  function Parse(text: string): seq<MdNode>
    decreases |text|, 3, 0
  {
    ParseAt(text, 0)
  }

  /** The nodes the loop pushes from index `i` on. */
  function ParseAt(text: string, i: nat): seq<MdNode>
    decreases |text|, 2, |text| - i
  {
    if i >= |text| then []
    else
      var s := Step(text, i);
      [s.0] + ParseAt(text, s.1)
  }

  /** One pass of the loop at `i`: the node it pushes and where the next pass starts. */
  function Step(text: string, i: nat): (r: (MdNode, nat))
    requires i < |text|
    ensures i < r.1 <= |text|
    decreases |text|, 1, 0
  {
    var d := Delimited(text, i);
    if d.Some? then d.value else PlainStep(text, i)
  }

  /** A node opened by `marker` at `i` and closed by the next `marker`, its content parsed again. */
  function Paired(text: string, i: nat, marker: string, kind: Kind): (r: Option<(MdNode, nat)>)
    requires |marker| == 2 && i < |text|
    ensures r.Some? ==> i + 2 <= r.value.1 <= |text|
    decreases |text|, 0, 0
  {
    var e := IndexOf(text, marker, i + 2);
    if e != -1 then
      var content := text[i + 2..e];
      Some((MdNode(kind, content, None, Children(Parse(content))), e + 2))
    else None
  }

  /** A node opened by the single `c` at `i` and closed by the next unescaped `c`, with non-empty content. */
  function Single(text: string, i: nat, c: char, kind: Kind): (r: Option<(MdNode, nat)>)
    requires i < |text|
    ensures r.Some? ==> i + 2 < r.value.1 <= |text|
    decreases |text|, 0, 0
  {
    var e := FindUnescaped(text, c, i + 1);
    if e != -1 && e > i + 1 then
      var content := text[i + 1..e];
      Some((MdNode(kind, content, None, Children(Parse(content))), e + 1))
    else None
  }

  /** The formatted constructs tried at `i`, in the source's order; `None` falls through to plain text. */
  function Delimited(text: string, i: nat): (r: Option<(MdNode, nat)>)
    requires i < |text|
    ensures r.Some? ==> i < r.value.1 <= |text|
    decreases |text|, 0, 1
  {
    if text[i] == '*' then
      if i + 1 < |text| && text[i + 1] == '*' then Paired(text, i, "**", Bold) else Single(text, i, '*', Bold)
    else if text[i] == '_' then
      if i + 1 < |text| && text[i + 1] == '_' then Paired(text, i, "__", Italic) else Single(text, i, '_', Italic)
    else if OccursAt(text, "~~", i) then Paired(text, i, "~~", Strikethrough)
    else if OccursAt(text, "||", i) then Paired(text, i, "||", Spoiler)
    else if text[i] == '`' then CodeAt(text, i)
    else if text[i] == '[' then LinkAt(text, i)
    else None
  }

  /** `` `code` ``: the text up to the next unescaped backquote, not parsed further. */
  function CodeAt(text: string, i: nat): (r: Option<(MdNode, nat)>)
    requires i < |text|
    ensures r.Some? ==> i < r.value.1 <= |text|
  {
    var e := FindUnescaped(text, '`', i + 1);
    if e != -1 then Some((MdNode(Code, text[i + 1..e], None, NoChildren), e + 1)) else None
  }

  /** `[text](url)`: a `]` directly followed by `(`, then the next `)`. */
  function LinkAt(text: string, i: nat): (r: Option<(MdNode, nat)>)
    requires i < |text|
    ensures r.Some? ==> i < r.value.1 <= |text|
  {
    var linkEnd := IndexOf(text, "]", i + 1);
    if linkEnd != -1 && OccursAt(text, "(", linkEnd + 1) then
      var urlEnd := IndexOf(text, ")", linkEnd + 2);
      if urlEnd != -1 then
        Some((MdNode(Link, text[i + 1..linkEnd], Some(text[linkEnd + 2..urlEnd]), NoChildren), urlEnd + 1))
      else None
    else None
  }

  // ---------------------------------------------------------------- the loop

  /** The two-character-marker branches of the loop body. */
  method PairedLoop(text: string, i: nat, marker: string, kind: Kind) returns (r: Option<(MdNode, nat)>)
    requires |marker| == 2 && i < |text|
    ensures r == Paired(text, i, marker, kind)
    decreases |text|, 0
  {
    var e := IndexOf(text, marker, i + 2);
    r := None;
    if e != -1 {
      var content := text[i + 2..e];
      var children := ParseTelegramMarkdown(content);
      r := Some((MdNode(kind, content, None, Children(children)), e + 2));
    }
  }

  /** The single-character-marker branches of the loop body. */
  method SingleLoop(text: string, i: nat, c: char, kind: Kind) returns (r: Option<(MdNode, nat)>)
    requires i < |text|
    ensures r == Single(text, i, c, kind)
    decreases |text|, 0
  {
    var e := FindUnescapedLoop(text, c, i + 1);
    r := None;
    if e != -1 && e > i + 1 {
      var content := text[i + 1..e];
      var children := ParseTelegramMarkdown(content);
      r := Some((MdNode(kind, content, None, Children(children)), e + 1));
    }
  }

  /** The code branch of the loop body. */
  method CodeLoop(text: string, i: nat) returns (r: Option<(MdNode, nat)>)
    requires i < |text|
    ensures r == CodeAt(text, i)
  {
    var e := FindUnescapedLoop(text, '`', i + 1);
    r := None;
    if e != -1 {
      r := Some((MdNode(Code, text[i + 1..e], None, NoChildren), e + 1));
    }
  }

  /** The link branch of the loop body. */
  method LinkLoop(text: string, i: nat) returns (r: Option<(MdNode, nat)>)
    requires i < |text|
    ensures r == LinkAt(text, i)
  {
    var linkEnd := IndexOf(text, "]", i + 1);
    r := None;
    if linkEnd != -1 && OccursAt(text, "(", linkEnd + 1) {
      var urlEnd := IndexOf(text, ")", linkEnd + 2);
      if urlEnd != -1 {
        r := Some((MdNode(Link, text[i + 1..linkEnd], Some(text[linkEnd + 2..urlEnd]), NoChildren), urlEnd + 1));
      }
    }
  }

  /** The chain of formatted branches at the top of the loop body. */
  method DelimitedLoop(text: string, i: nat) returns (found: Option<(MdNode, nat)>)
    requires i < |text|
    ensures found == Delimited(text, i)
    decreases |text|, 1
  {
    found := None;
    if text[i] == '*' {
      if i + 1 < |text| && text[i + 1] == '*' {
        found := PairedLoop(text, i, "**", Bold);
      } else {
        found := SingleLoop(text, i, '*', Bold);
      }
    } else if text[i] == '_' {
      if i + 1 < |text| && text[i + 1] == '_' {
        found := PairedLoop(text, i, "__", Italic);
      } else {
        found := SingleLoop(text, i, '_', Italic);
      }
    } else if OccursAt(text, "~~", i) {
      found := PairedLoop(text, i, "~~", Strikethrough);
    } else if OccursAt(text, "||", i) {
      found := PairedLoop(text, i, "||", Spoiler);
    } else if text[i] == '`' {
      found := CodeLoop(text, i);
    } else if text[i] == '[' {
      found := LinkLoop(text, i);
    }
  }

  /** The plain-text scan at the bottom of the loop body. */
  method PlainLoop(text: string, i: nat) returns (step: (MdNode, nat))
    requires i < |text|
    ensures step == PlainStep(text, i)
  {
    var textEnd := i;
    while textEnd < |text| && !StopsText(text, textEnd)
      invariant i <= textEnd <= |text|
      invariant forall k :: i <= k < textEnd ==> !StopsText(text, k)
      decreases |text| - textEnd
    {
      textEnd := textEnd + 1;
    }
    assert textEnd == PlainEnd(text, i);
    if textEnd > i {
      step := (TextNode(text[i..textEnd]), textEnd);
    } else {
      step := (TextNode([text[i]]), i + 1);
    }
  }

  /** `parseTelegramMarkdown`: the while loop over `i`, pushing one node per pass. */
  method ParseTelegramMarkdown(text: string) returns (nodes: seq<MdNode>)
    ensures nodes == Parse(text)
    decreases |text|, 2
  {
    nodes := [];
    if text == [] {
      return;
    }
    var i := 0;
    while i < |text|
      invariant i <= |text|
      invariant nodes + ParseAt(text, i) == Parse(text)
      decreases |text| - i
    {
      var found := DelimitedLoop(text, i);
      var step: (MdNode, nat);
      if found.Some? {
        step := found.value;
      } else {
        step := PlainLoop(text, i);
      }
      assert step == Step(text, i);
      nodes := nodes + [step.0];
      i := step.1;
    }
  }

  // ---------------------------------------------------------------- properties

  /** The shape of a node: a url exactly on links, children exactly on formatted nodes, plain text never empty. */
  predicate WellFormed(n: MdNode)
    decreases n
  {
    (n.kind == Link <==> n.url.Some?)
    && (n.kind == PlainText || n.kind == Code || n.kind == Link <==> n.children.NoChildren?)
    && (n.kind == PlainText ==> n.content != [])
    && (n.children.Children? ==> AllWellFormed(n.children.nodes))
  }

  predicate AllWellFormed(ns: seq<MdNode>)
    decreases ns
  {
    forall k :: 0 <= k < |ns| ==> WellFormed(ns[k])
  }

  /** Every node the parser produces, at every depth, is well formed. */
  lemma {:induction false} ParseWellFormed(text: string)
    ensures AllWellFormed(Parse(text))
    decreases |text|, 2, 0
  {
    ParseAtWellFormed(text, 0);
  }

  lemma {:induction false} ParseAtWellFormed(text: string, i: nat)
    ensures AllWellFormed(ParseAt(text, i))
    decreases |text|, 1, |text| - i
  {
    if i < |text| {
      var s := Step(text, i);
      StepWellFormed(text, i);
      ParseAtWellFormed(text, s.1);
      assert ParseAt(text, i) == [s.0] + ParseAt(text, s.1);
    }
  }

  lemma {:induction false} StepWellFormed(text: string, i: nat)
    requires i < |text|
    ensures WellFormed(Step(text, i).0)
    decreases |text|, 0, 0
  {
    var d := Delimited(text, i);
    if d.Some? {
      DelimitedShape(text, i);
      var n := d.value.0;
      if n.children.Children? {
        ParseWellFormed(n.content);
      }
    }
  }

  /**
   * What a formatted construct yields: a parsed, shorter content for bold,
   * italic, strikethrough and spoiler; no children for code; a url and no
   * children for a link.
   */
  lemma DelimitedShape(text: string, i: nat)
    requires i < |text| && Delimited(text, i).Some?
    ensures var n := Delimited(text, i).value.0;
      n.kind != PlainText
      && (n.kind == Link <==> n.url.Some?)
      && (n.kind == Code || n.kind == Link <==> n.children.NoChildren?)
      && (n.children.Children? ==> |n.content| < |text| && n.children.nodes == Parse(n.content))
  {
  }

  /** The parser always advances: the passes tile the text, so at most one node per character. */
  lemma {:induction false} ParseAtLength(text: string, i: nat)
    requires i <= |text|
    ensures |ParseAt(text, i)| <= |text| - i
    decreases |text| - i
  {
    if i < |text| {
      ParseAtLength(text, Step(text, i).1);
    }
  }

  /** Text with no marker anywhere comes back as one plain-text node; the empty text gives no nodes. */
  lemma PlainTextPassesThrough(text: string)
    requires forall k :: 0 <= k < |text| ==> !StopsText(text, k)
    ensures text == [] ==> Parse(text) == []
    ensures text != [] ==> Parse(text) == [TextNode(text)]
  {
    if text != [] {
      assert !StopsText(text, 0);
      OccursAtPair(text, "~~", 0);
      OccursAtPair(text, "||", 0);
      assert Delimited(text, 0) == None;
      assert PlainEnd(text, 0) == |text|;
      assert text[0..|text|] == text;
      assert Step(text, 0) == (TextNode(text), |text|);
      assert ParseAt(text, |text|) == [];
    }
  }

  /** A single `*` opens bold only with non-empty content; otherwise it stays a one-character text. */
  lemma SingleStarBold(text: string, i: nat)
    requires i < |text| && text[i] == '*' && !(i + 1 < |text| && text[i + 1] == '*')
    ensures var e := FindUnescaped(text, '*', i + 1);
      if e > i + 1 then Step(text, i) == (MdNode(Bold, text[i + 1..e], None, Children(Parse(text[i + 1..e]))), e + 1)
      else Step(text, i) == (TextNode("*"), i + 1)
  {
    var e := FindUnescaped(text, '*', i + 1);
    assert Delimited(text, i) == Single(text, i, '*', Bold);
    if e <= i + 1 {
      assert StopsText(text, i);
      assert PlainEnd(text, i) == i;
      assert [text[i]] == "*";
    }
  }

  /** `**x**` is bold up to the next `**`; without a closing `**` the first star stays a one-character text. */
  lemma DoubleStarBold(text: string, i: nat)
    requires OccursAt(text, "**", i)
    ensures var e := IndexOf(text, "**", i + 2);
      if e != -1 then Step(text, i) == (MdNode(Bold, text[i + 2..e], None, Children(Parse(text[i + 2..e]))), e + 2)
      else Step(text, i) == (TextNode("*"), i + 1)
  {
    OccursAtPair(text, "**", i);
    assert Delimited(text, i) == Paired(text, i, "**", Bold);
    if IndexOf(text, "**", i + 2) == -1 {
      assert StopsText(text, i);
      assert PlainEnd(text, i) == i;
      assert [text[i]] == "*";
    }
  }

  /** `[text](url)` gives a link carrying the text and the url, and no children. */
  lemma LinkNode(text: string, i: nat)
    requires i < |text| && text[i] == '['
    requires var linkEnd := IndexOf(text, "]", i + 1);
      linkEnd != -1 && OccursAt(text, "(", linkEnd + 1) && IndexOf(text, ")", linkEnd + 2) != -1
    ensures var linkEnd := IndexOf(text, "]", i + 1);
      var urlEnd := IndexOf(text, ")", linkEnd + 2);
      Step(text, i).0 == MdNode(Link, text[i + 1..linkEnd], Some(text[linkEnd + 2..urlEnd]), NoChildren)
  {
    OccursAtPair(text, "~~", i);
    OccursAtPair(text, "||", i);
    assert Delimited(text, i) == LinkAt(text, i);
  }
}
