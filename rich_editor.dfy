/**
 * The two HTML converters of the Telegram rich-text editor
 * (`components/ui/telegram-rich-editor.tsx`). Stored Telegram HTML keeps line
 * breaks as newlines; the editor works on paragraphs (`<p>…</p>`) with `<br>`
 * inside them. `telegramHtmlToTiptap` goes one way, `tiptapHtmlToTelegram`,
 * a chain of global regular-expression replacements, goes back, and
 * `prepareContentForEditor` picks the conversion for a stored value.
 */
module RichEditor {
  import opened Text

  // ---------------------------------------------------------------- Telegram HTML to editor HTML

  /** `para.replace(/\n/g, '<br>')`. */
  function BreakLines(p: string): string {
    if p == [] then []
    else (if p[0] == '\n' then "<br>" else [p[0]]) + BreakLines(p[1..])
  }

  /** No newline survives. */
  lemma {:induction false} BreakLinesNoNewline(p: string)
    ensures forall k :: 0 <= k < |BreakLines(p)| ==> BreakLines(p)[k] != '\n'
  {
    if p != [] {
      BreakLinesNoNewline(p[1..]);
      var piece := if p[0] == '\n' then "<br>" else [p[0]];
      var rest := BreakLines(p[1..]);
      assert BreakLines(p) == piece + rest;
      forall k | 0 <= k < |BreakLines(p)|
        ensures BreakLines(p)[k] != '\n'
      {
        if k >= |piece| {
          assert BreakLines(p)[k] == rest[k - |piece|];
        }
      }
    }
  }

  /** One editor paragraph. */
  function Paragraph(block: string): string {
    "<p>" + BreakLines(block) + "</p>"
  }

  /** `telegramHtmlToTiptap`: one paragraph per block between blank lines, joined with nothing between them. */
  function TelegramHtmlToTiptap(telegramHtml: string): string {
    if telegramHtml == "" then "<p></p>"
    else
      var blocks := Split(telegramHtml, "\n\n");
      Join(seq(|blocks|, i requires 0 <= i < |blocks| => Paragraph(blocks[i])), "")
  }

  /** The paragraphs of a list of blocks, in order. */
  function Paragraphs(blocks: seq<string>): string {
    if blocks == [] then "" else Paragraph(blocks[0]) + Paragraphs(blocks[1..])
  }

  /** Joining with the empty separator is concatenation. */
  lemma {:induction false} JoinParagraphs(blocks: seq<string>)
    ensures Join(seq(|blocks|, i requires 0 <= i < |blocks| => Paragraph(blocks[i])), "") == Paragraphs(blocks)
  {
    var ps := seq(|blocks|, i requires 0 <= i < |blocks| => Paragraph(blocks[i]));
    if |blocks| == 1 {
      assert blocks[1..] == [];
    } else if |blocks| > 1 {
      JoinParagraphs(blocks[1..]);
      assert ps[1..] == seq(|blocks[1..]|, i requires 0 <= i < |blocks[1..]| => Paragraph(blocks[1..][i]));
    }
  }

  /** A run of paragraphs holds no newline. */
  lemma {:induction false} ParagraphsNoNewline(blocks: seq<string>)
    ensures forall k :: 0 <= k < |Paragraphs(blocks)| ==> Paragraphs(blocks)[k] != '\n'
  {
    if blocks != [] {
      ParagraphsNoNewline(blocks[1..]);
      BreakLinesNoNewline(blocks[0]);
      var b := BreakLines(blocks[0]);
      assert forall k :: 0 <= k < |b| ==> b[k] != '\n';
    }
  }

  /**
   * Empty input gives one empty paragraph; otherwise the result is one
   * paragraph per block of the split on blank lines, with every newline
   * inside a block turned into `<br>`. Either way the result opens with `<p>`,
   * closes with `</p>` and holds no newline.
   */
  lemma TiptapParagraphs(telegramHtml: string)
    ensures telegramHtml == "" ==> TelegramHtmlToTiptap(telegramHtml) == "<p></p>"
    ensures telegramHtml != "" ==> TelegramHtmlToTiptap(telegramHtml) == Paragraphs(Split(telegramHtml, "\n\n"))
    ensures var r := TelegramHtmlToTiptap(telegramHtml);
            StartsWith(r, "<p>") && EndsWith(r, "</p>") && forall k :: 0 <= k < |r| ==> r[k] != '\n'
  {
    if telegramHtml != "" {
      var blocks := Split(telegramHtml, "\n\n");
      JoinParagraphs(blocks);
      ParagraphsNoNewline(blocks);
      ParagraphsEnds(blocks);
    }
  }

  /** A non-empty run of paragraphs opens with `<p>` and closes with `</p>`. */
  lemma {:induction false} ParagraphsEnds(blocks: seq<string>)
    requires blocks != []
    ensures StartsWith(Paragraphs(blocks), "<p>") && EndsWith(Paragraphs(blocks), "</p>")
  {
    var first := Paragraph(blocks[0]);
    var rest := Paragraphs(blocks[1..]);
    assert (first + rest)[..3] == first[..3];
    if blocks[1..] == [] {
      assert first + rest == first;
    } else {
      ParagraphsEnds(blocks[1..]);
      assert (first + rest)[|first + rest| - 4..] == rest[|rest| - 4..];
    }
  }

  // ---------------------------------------------------------------- the patterns of the way back

  predicate IsB(c: char) { c == 'b' || c == 'B' }
  predicate IsR(c: char) { c == 'r' || c == 'R' }
  predicate IsP(c: char) { c == 'p' || c == 'P' }

  /** Where the white space of `s` from `i` ends (`\s*`). */
  function SpacesEnd(s: string, i: nat): (k: nat)
    requires i <= |s|
    ensures i <= k <= |s|
    ensures k < |s| ==> !IsSpace(s[k])
    decreases |s| - i
  {
    if i < |s| && IsSpace(s[i]) then SpacesEnd(s, i + 1) else i
  }

  /** Everything `SpacesEnd` skips is white space. */
  lemma {:induction false} SpacesEndSkipsSpaces(s: string, i: nat)
    requires i <= |s|
    ensures forall j :: i <= j < SpacesEnd(s, i) ==> IsSpace(s[j])
    decreases |s| - i
  {
    if i < |s| && IsSpace(s[i]) {
      SpacesEndSkipsSpaces(s, i + 1);
    }
  }

  /** Where the newlines of `s` from `i` end. */
  function NewlinesEnd(s: string, i: nat): (k: nat)
    requires i <= |s|
    ensures i <= k <= |s|
    ensures forall j :: i <= j < k ==> s[j] == '\n'
    ensures k < |s| ==> s[k] != '\n'
    decreases |s| - i
  {
    if i < |s| && s[i] == '\n' then NewlinesEnd(s, i + 1) else i
  }

  /** `<p>` at `i`, in either case. */
  predicate OpenTagAt(s: string, i: int) {
    0 <= i && i + 3 <= |s| && s[i] == '<' && IsP(s[i + 1]) && s[i + 2] == '>'
  }

  /** `</p>` at `i`, in either case. */
  predicate CloseTagAt(s: string, i: int) {
    0 <= i && i + 4 <= |s| && s[i] == '<' && s[i + 1] == '/' && IsP(s[i + 2]) && s[i + 3] == '>'
  }

  /** The end of a match of `<br\s*\/?>` (either case) at `i`, or 0 when there is none. */
  function BreakEnd(s: string, i: nat): (e: nat)
    ensures e == 0 || i + 4 <= e <= |s|
  {
    if i + 3 <= |s| && s[i] == '<' && IsB(s[i + 1]) && IsR(s[i + 2]) then
      var k := SpacesEnd(s, i + 3);
      var k2 := if k < |s| && s[k] == '/' then k + 1 else k;
      if k2 < |s| && s[k2] == '>' then k2 + 1 else 0
    else 0
  }

  /** The regular expressions of `tiptapHtmlToTelegram`; all but the last are case-insensitive. */
  datatype Pattern =
    | EmptyBreakParagraph  // <p><br\s*\/?><\/p>
    | BlankParagraph       // <p>\s*<\/p>
    | LineBreak            // <br\s*\/?>
    | ParagraphBoundary    // <\/p>\s*<p>
    | ParagraphTag         // <\/?p>
    | NewlineRun           // \n{3,}

  /** The length of the match of `p` starting at `i`, or 0 when there is none; no pattern matches the empty string. */
  function MatchLen(p: Pattern, s: string, i: nat): (n: nat)
    ensures n == 0 || i + n <= |s|
  {
    match p
    case EmptyBreakParagraph =>
      if OpenTagAt(s, i) && BreakEnd(s, i + 3) > 0 && CloseTagAt(s, BreakEnd(s, i + 3))
      then BreakEnd(s, i + 3) + 4 - i else 0
    case BlankParagraph =>
      if OpenTagAt(s, i) && CloseTagAt(s, SpacesEnd(s, i + 3)) then SpacesEnd(s, i + 3) + 4 - i else 0
    case LineBreak =>
      if BreakEnd(s, i) > 0 then BreakEnd(s, i) - i else 0
    case ParagraphBoundary =>
      if CloseTagAt(s, i) && OpenTagAt(s, SpacesEnd(s, i + 4)) then SpacesEnd(s, i + 4) + 3 - i else 0
    case ParagraphTag =>
      if OpenTagAt(s, i) then 3 else if CloseTagAt(s, i) then 4 else 0
    case NewlineRun =>
      if i < |s| && NewlinesEnd(s, i) >= i + 3 then NewlinesEnd(s, i) - i else 0
  }

  /**
   * `s.replace(regex, repl)` with the global flag, from index `i` on: at each
   * index a match is replaced and scanning resumes after it; otherwise the
   * character is kept. The replaced text is not scanned again.
   */
  function ReplaceFrom(p: Pattern, repl: string, s: string, i: nat): string
    decreases |s| - i
  {
    if i >= |s| then []
    else
      var n := MatchLen(p, s, i);
      if n > 0 then repl + ReplaceFrom(p, repl, s, i + n)
      else [s[i]] + ReplaceFrom(p, repl, s, i + 1)
  }

  function ReplaceAll(p: Pattern, repl: string, s: string): string {
    ReplaceFrom(p, repl, s, 0)
  }

  // ---------------------------------------------------------------- editor HTML to Telegram HTML

  /** Steps 1 to 4 of `tiptapHtmlToTelegram`: everything before the newline collapse. */
  function Unwrapped(tiptapHtml: string): string {
    var s1 := ReplaceAll(EmptyBreakParagraph, "", tiptapHtml);
    var s2 := ReplaceAll(BlankParagraph, "", s1);
    var s3 := ReplaceAll(LineBreak, "\n", s2);
    var s4 := ReplaceAll(ParagraphBoundary, "\n\n", s3);
    ReplaceAll(ParagraphTag, "", s4)
  }

  /** `tiptapHtmlToTelegram`. */
  function TiptapHtmlToTelegram(tiptapHtml: string): string {
    if tiptapHtml == "" then ""
    else Trim(ReplaceAll(NewlineRun, "\n\n", Unwrapped(tiptapHtml)))
  }

  // ---------------------------------------------------------------- no run of three newlines

  /** No three newlines in a row. */
  predicate NoTriple(s: string) {
    forall j :: 0 <= j < |s| - 2 ==> !(s[j] == '\n' && s[j + 1] == '\n' && s[j + 2] == '\n')
  }

  /** The number of newlines `x` starts with. */
  function LeadingNewlines(x: string): (n: nat)
    ensures n <= |x|
  {
    if x != [] && x[0] == '\n' then 1 + LeadingNewlines(x[1..]) else 0
  }

  /**
   * After collapsing, there is no run of three newlines, and the output
   * starts with as many newlines as the input (from `i`), at most two.
   */
  lemma {:induction false} CollapseFrom(s: string, i: nat)
    requires i <= |s|
    ensures var r := ReplaceFrom(NewlineRun, "\n\n", s, i);
            var d := NewlinesEnd(s, i) - i;
            NoTriple(r) && LeadingNewlines(r) == if d >= 3 then 2 else d
    decreases |s| - i
  {
    if i < |s| {
      var n := MatchLen(NewlineRun, s, i);
      if n > 0 {
        var e := NewlinesEnd(s, i);
        CollapseFrom(s, e);
        assert NewlinesEnd(s, e) == e;
        PrependPair(ReplaceFrom(NewlineRun, "\n\n", s, e));
      } else {
        CollapseFrom(s, i + 1);
        if s[i] == '\n' {
          assert NewlinesEnd(s, i) == NewlinesEnd(s, i + 1);
        }
        PrependOne(s[i], ReplaceFrom(NewlineRun, "\n\n", s, i + 1));
      }
    }
  }

  /** Two newlines in front of text that starts without one. */
  lemma PrependPair(r: string)
    requires NoTriple(r) && LeadingNewlines(r) == 0
    ensures NoTriple("\n\n" + r) && LeadingNewlines("\n\n" + r) == 2
  {
    var x := "\n\n" + r;
    assert x[1..] == "\n" + r && x[1..][1..] == r;
    assert r == [] || r[0] != '\n';
  }

  /** One character in front of text that starts with at most one newline when the character is one. */
  lemma PrependOne(c: char, r: string)
    requires NoTriple(r) && (c == '\n' ==> LeadingNewlines(r) <= 1)
    ensures NoTriple([c] + r)
    ensures LeadingNewlines([c] + r) == if c == '\n' then 1 + LeadingNewlines(r) else 0
  {
    var x := [c] + r;
    assert x[1..] == r;
    if c == '\n' && |r| >= 2 && r[0] == '\n' {
      assert r[1..][0] == r[1];
    }
    forall j | 0 <= j < |x| - 2
      ensures !(x[j] == '\n' && x[j + 1] == '\n' && x[j + 2] == '\n')
    {
      if j >= 1 {
        assert x[j] == r[j - 1] && x[j + 1] == r[j] && x[j + 2] == r[j + 1];
      } else {
        assert x[1] == r[0] && x[2] == r[1];
      }
    }
  }

  /** A slice of a string without three newlines in a row has none either. */
  lemma NoTripleSlice(x: string, k: nat, m: nat)
    requires k <= m <= |x| && NoTriple(x)
    ensures NoTriple(x[k..m])
  {
    var t := x[k..m];
    forall j | 0 <= j < |t| - 2
      ensures !(t[j] == '\n' && t[j + 1] == '\n' && t[j + 2] == '\n')
    {
      assert t[j] == x[k + j] && t[j + 1] == x[k + j + 1] && t[j + 2] == x[k + j + 2];
    }
  }

  /**
   * The text handed back to Telegram is empty for empty input, never holds
   * three newlines in a row, and neither starts nor ends with white space.
   */
  lemma TelegramTextShape(tiptapHtml: string)
    ensures tiptapHtml == "" ==> TiptapHtmlToTelegram(tiptapHtml) == ""
    ensures NoTriple(TiptapHtmlToTelegram(tiptapHtml))
    ensures var r := TiptapHtmlToTelegram(tiptapHtml);
            r == [] || (!IsSpace(r[0]) && !IsSpace(r[|r| - 1]))
  {
    if tiptapHtml != "" {
      var c := ReplaceAll(NewlineRun, "\n\n", Unwrapped(tiptapHtml));
      CollapseFrom(Unwrapped(tiptapHtml), 0);
      var k := TrimInside(c);
      NoTripleSlice(c, k, k + |Trim(c)|);
    }
  }

  // ---------------------------------------------------------------- no paragraph tags left

  /** No `<` or `>` in `s`. */
  predicate BracketFree(s: string) {
    forall k :: 0 <= k < |s| ==> s[k] != '<' && s[k] != '>'
  }

  /**
   * From `i` on, the angle brackets of `s` alternate: a `<` only outside a
   * tag, a `>` only inside one. The HTML an editor serialises has this shape,
   * since it escapes `<` and `>` in text.
   */
  predicate Alternating(s: string, i: nat, inTag: bool)
    decreases |s| - i
  {
    if i >= |s| then true
    else if s[i] == '<' then !inTag && Alternating(s, i + 1, true)
    else if s[i] == '>' then inTag && Alternating(s, i + 1, false)
    else Alternating(s, i + 1, inTag)
  }

  /** The bracket state after one character. */
  function After(c: char, inTag: bool): bool {
    if c == '<' then true else if c == '>' then false else inTag
  }

  /** Prepending one character shifts the indices by one. */
  lemma {:induction false} AlternatingShift(c: char, b: string, i: nat, inTag: bool)
    requires i <= |b|
    ensures Alternating([c] + b, i + 1, inTag) == Alternating(b, i, inTag)
    decreases |b| - i
  {
    if i < |b| {
      assert ([c] + b)[i + 1] == b[i];
      AlternatingShift(c, b, i + 1, After(b[i], inTag));
      AlternatingShift(c, b, i + 1, inTag);
    }
  }

  /** A bracket-free prefix does not change the state. */
  lemma {:induction false} AlternatingPrefix(a: string, b: string, inTag: bool)
    requires BracketFree(a)
    ensures Alternating(a + b, 0, inTag) == Alternating(b, 0, inTag)
  {
    if a != [] {
      var t := a[1..] + b;
      assert a + b == [a[0]] + t;
      assert ([a[0]] + t)[0] == a[0] && a[0] != '<' && a[0] != '>';
      assert Alternating([a[0]] + t, 0, inTag) == Alternating([a[0]] + t, 1, inTag);
      assert BracketFree(a[1..]);
      AlternatingShift(a[0], t, 0, inTag);
      AlternatingPrefix(a[1..], b, inTag);
    } else {
      assert a + b == b;
    }
  }

  /** White space does not change the state. */
  lemma {:induction false} AlternatingSpaces(s: string, i: nat, inTag: bool)
    requires i <= |s| && Alternating(s, i, inTag)
    ensures Alternating(s, SpacesEnd(s, i), inTag)
    decreases |s| - i
  {
    if i < |s| && IsSpace(s[i]) {
      AlternatingSpaces(s, i + 1, inTag);
    }
  }

  /** A `<br…>` tag in alternating text ends back outside a tag. */
  lemma AlternatingBreak(s: string, i: nat)
    requires Alternating(s, i, false) && BreakEnd(s, i) > 0
    ensures Alternating(s, BreakEnd(s, i), false)
  {
    assert Alternating(s, i + 1, true);
    assert Alternating(s, i + 2, true);
    assert Alternating(s, i + 3, true);
    AlternatingSpaces(s, i + 3, true);
    var k := SpacesEnd(s, i + 3);
    if k < |s| && s[k] == '/' {
      assert Alternating(s, k + 1, true);
    }
  }

  /** So do `<p>` and `</p>`. */
  lemma AlternatingTags(s: string, i: nat)
    requires Alternating(s, i, false)
    ensures OpenTagAt(s, i) ==> Alternating(s, i + 3, false)
    ensures CloseTagAt(s, i) ==> Alternating(s, i + 4, false)
  {
    if OpenTagAt(s, i) {
      assert Alternating(s, i + 1, true);
      assert Alternating(s, i + 2, true);
    }
    if CloseTagAt(s, i) {
      assert Alternating(s, i + 1, true);
      assert Alternating(s, i + 2, true);
      assert Alternating(s, i + 3, true);
    }
  }

  /** Every match of the tag patterns is a run of whole tags, possibly with white space between them. */
  lemma AlternatingMatch(p: Pattern, s: string, i: nat)
    requires p != NewlineRun && MatchLen(p, s, i) > 0 && Alternating(s, i, false)
    ensures Alternating(s, i + MatchLen(p, s, i), false)
  {
    match p
    case EmptyBreakParagraph =>
      AlternatingTags(s, i);
      AlternatingBreak(s, i + 3);
      AlternatingTags(s, BreakEnd(s, i + 3));
    case BlankParagraph =>
      AlternatingTags(s, i);
      AlternatingSpaces(s, i + 3, false);
      AlternatingTags(s, SpacesEnd(s, i + 3));
    case LineBreak =>
      AlternatingBreak(s, i);
    case ParagraphBoundary =>
      AlternatingTags(s, i);
      AlternatingSpaces(s, i + 4, false);
      AlternatingTags(s, SpacesEnd(s, i + 4));
    case ParagraphTag =>
      AlternatingTags(s, i);
  }

  /** A match starts with `<`. */
  lemma MatchStartsTag(p: Pattern, s: string, i: nat)
    requires p != NewlineRun && MatchLen(p, s, i) > 0
    ensures i < |s| && s[i] == '<'
  {
  }

  /** Replacing whole tags by bracket-free text keeps the brackets alternating. */
  lemma {:induction false} ReplaceKeepsAlternating(p: Pattern, repl: string, s: string, i: nat, inTag: bool)
    requires p != NewlineRun && BracketFree(repl)
    requires i <= |s| && Alternating(s, i, inTag)
    ensures Alternating(ReplaceFrom(p, repl, s, i), 0, inTag)
    decreases |s| - i
  {
    if i < |s| {
      var n := MatchLen(p, s, i);
      if n > 0 {
        MatchStartsTag(p, s, i);
        AlternatingMatch(p, s, i);
        ReplaceKeepsAlternating(p, repl, s, i + n, false);
        AlternatingPrefix(repl, ReplaceFrom(p, repl, s, i + n), false);
      } else {
        var st := After(s[i], inTag);
        ReplaceKeepsAlternating(p, repl, s, i + 1, st);
        AlternatingShift(s[i], ReplaceFrom(p, repl, s, i + 1), 0, st);
      }
    }
  }

  /** No `<p>` or `</p>` anywhere, in either case. */
  ghost predicate TagFree(x: string) {
    forall j :: !OpenTagAt(x, j) && !CloseTagAt(x, j)
  }

  /** Stripping tags never lengthens the text. */
  lemma {:induction false} StripShorter(s: string, i: nat)
    requires i <= |s|
    ensures |ReplaceFrom(ParagraphTag, "", s, i)| <= |s| - i
    decreases |s| - i
  {
    if i < |s| {
      var n := MatchLen(ParagraphTag, s, i);
      if n > 0 {
        StripShorter(s, i + n);
      } else {
        StripShorter(s, i + 1);
      }
    }
  }

  /** Inside a tag, stripping keeps the characters up to the closing `>`. */
  lemma {:induction false} StripKeepsInside(s: string, i: nat, k: nat)
    requires i + k <= |s| && Alternating(s, i, true)
    requires forall m :: i <= m < i + k - 1 ==> s[m] != '>'
    ensures var r := ReplaceFrom(ParagraphTag, "", s, i);
            |r| >= k && r[..k] == s[i..i + k]
    decreases k
  {
    if k > 0 {
      var r' := ReplaceFrom(ParagraphTag, "", s, i + 1);
      assert ReplaceFrom(ParagraphTag, "", s, i) == [s[i]] + r';
      if k > 1 {
        StripKeepsInside(s, i + 1, k - 1);
        assert s[i..i + k] == [s[i]] + s[i + 1..i + k];
      } else {
        assert s[i..i + 1] == [s[i]];
      }
    }
  }

  /**
   * Stripping `<p>` and `</p>` from text whose brackets alternate leaves none:
   * a tag in the output would have to join a kept `<` to characters after a
   * removed tag, and alternation puts no tag between a `<` and its `>`.
   */
  lemma {:induction false} StripLeavesNoTags(s: string, i: nat, inTag: bool)
    requires i <= |s| && Alternating(s, i, inTag)
    ensures TagFree(ReplaceFrom(ParagraphTag, "", s, i))
    decreases |s| - i
  {
    var r := ReplaceFrom(ParagraphTag, "", s, i);
    if i < |s| {
      var n := MatchLen(ParagraphTag, s, i);
      if n > 0 {
        AlternatingTags(s, i);
        StripLeavesNoTags(s, i + n, false);
        assert r == ReplaceFrom(ParagraphTag, "", s, i + n);
      } else {
        var st := After(s[i], inTag);
        StripLeavesNoTags(s, i + 1, st);
        var r' := ReplaceFrom(ParagraphTag, "", s, i + 1);
        assert r == [s[i]] + r';
        StripShorter(s, i + 1);
        if s[i] == '<' {
          if i + 2 <= |s| {
            StripKeepsInside(s, i + 1, 1);
            if s[i + 1] != '>' && i + 3 <= |s| {
              StripKeepsInside(s, i + 1, 2);
              if s[i + 2] != '>' && i + 4 <= |s| {
                StripKeepsInside(s, i + 1, 3);
              }
            }
          }
        }
        forall j
          ensures !OpenTagAt(r, j) && !CloseTagAt(r, j)
        {
          if j >= 1 {
            assert !OpenTagAt(r', j - 1) && !CloseTagAt(r', j - 1);
          }
        }
      }
    }
  }

  /** Collapsing newlines creates no tag. */
  lemma {:induction false} CollapseKeepsTagFree(s: string, i: nat)
    requires i <= |s| && forall j :: i <= j ==> !OpenTagAt(s, j) && !CloseTagAt(s, j)
    ensures TagFree(ReplaceFrom(NewlineRun, "\n\n", s, i))
    decreases |s| - i
  {
    if i < |s| {
      var n := MatchLen(NewlineRun, s, i);
      if n > 0 {
        CollapseKeepsTagFree(s, i + n);
        var r' := ReplaceFrom(NewlineRun, "\n\n", s, i + n);
        assert ReplaceFrom(NewlineRun, "\n\n", s, i) == "\n\n" + r';
        PrependNoAngle("\n\n", r');
      } else {
        CollapseKeepsTagFree(s, i + 1);
        assert !OpenTagAt(s, i) && !CloseTagAt(s, i);
        ConsKeepsTagFree(s, i);
      }
    }
  }

  /** Text without `<` in front of tag-free text makes tag-free text. */
  lemma PrependNoAngle(p: string, r: string)
    requires TagFree(r) && forall k :: 0 <= k < |p| ==> p[k] != '<'
    ensures TagFree(p + r)
  {
    var x := p + r;
    forall j
      ensures !OpenTagAt(x, j) && !CloseTagAt(x, j)
    {
      if 0 <= j < |p| {
        assert x[j] == p[j];
      } else if j >= |p| {
        assert !OpenTagAt(r, j - |p|) && !CloseTagAt(r, j - |p|);
        if j + 3 <= |x| {
          assert x[j] == r[j - |p|] && x[j + 1] == r[j - |p| + 1] && x[j + 2] == r[j - |p| + 2];
        }
        if j + 4 <= |x| {
          assert x[j + 3] == r[j - |p| + 3];
        }
      }
    }
  }

  /** A character that starts no tag, kept in front of the tag-free collapse of the rest, starts none either. */
  lemma ConsKeepsTagFree(s: string, i: nat)
    requires i < |s| && MatchLen(NewlineRun, s, i) == 0 && !OpenTagAt(s, i) && !CloseTagAt(s, i)
    requires TagFree(ReplaceFrom(NewlineRun, "\n\n", s, i + 1))
    ensures TagFree(ReplaceFrom(NewlineRun, "\n\n", s, i))
  {
    var r := ReplaceFrom(NewlineRun, "\n\n", s, i);
    var r' := ReplaceFrom(NewlineRun, "\n\n", s, i + 1);
    assert r == [s[i]] + r';
    assert !OpenTagAt(r, 0) && !CloseTagAt(r, 0) by {
      if i + 1 < |s| {
        CollapseKeepsStart(s, i + 1);
        if s[i + 1] != '\n' && i + 2 < |s| {
          CollapseKeepsStart(s, i + 2);
          if s[i + 2] != '\n' && i + 3 < |s| {
            CollapseKeepsStart(s, i + 3);
          }
        }
      }
    }
    forall j | j >= 1
      ensures !OpenTagAt(r, j) && !CloseTagAt(r, j)
    {
      assert !OpenTagAt(r', j - 1) && !CloseTagAt(r', j - 1);
    }
  }

  /** The collapse keeps a first character that is not a newline, and a newline stays in front as one. */
  lemma CollapseKeepsStart(s: string, i: nat)
    requires i < |s|
    ensures var r := ReplaceFrom(NewlineRun, "\n\n", s, i);
            |r| >= 1 && (r[0] == '\n' <==> s[i] == '\n')
            && (s[i] != '\n' ==> r == [s[i]] + ReplaceFrom(NewlineRun, "\n\n", s, i + 1))
  {
  }

  /** A slice of tag-free text is tag-free. */
  lemma TagFreeSlice(x: string, k: nat, m: nat)
    requires k <= m <= |x| && TagFree(x)
    ensures TagFree(x[k..m])
  {
    var t := x[k..m];
    forall j
      ensures !OpenTagAt(t, j) && !CloseTagAt(t, j)
    {
      if 0 <= j && j + 3 <= |t| {
        assert t[j] == x[k + j] && t[j + 1] == x[k + j + 1] && t[j + 2] == x[k + j + 2];
        assert !OpenTagAt(x, k + j);
      }
      if 0 <= j && j + 4 <= |t| {
        assert t[j + 3] == x[k + j + 3];
        assert !CloseTagAt(x, k + j);
      }
    }
  }

  /** Steps 1 to 4 on alternating input leave no paragraph tag. */
  lemma UnwrappedTagFree(tiptapHtml: string)
    requires Alternating(tiptapHtml, 0, false)
    ensures TagFree(Unwrapped(tiptapHtml))
  {
    var s1 := ReplaceAll(EmptyBreakParagraph, "", tiptapHtml);
    ReplaceKeepsAlternating(EmptyBreakParagraph, "", tiptapHtml, 0, false);
    var s2 := ReplaceAll(BlankParagraph, "", s1);
    ReplaceKeepsAlternating(BlankParagraph, "", s1, 0, false);
    var s3 := ReplaceAll(LineBreak, "\n", s2);
    ReplaceKeepsAlternating(LineBreak, "\n", s2, 0, false);
    var s4 := ReplaceAll(ParagraphBoundary, "\n\n", s3);
    ReplaceKeepsAlternating(ParagraphBoundary, "\n\n", s3, 0, false);
    StripLeavesNoTags(s4, 0, false);
  }

  /**
   * For editor HTML whose angle brackets alternate, the Telegram text holds
   * no `<p>` or `</p>` in either case.
   */
  lemma TelegramTextTagFree(tiptapHtml: string)
    requires Alternating(tiptapHtml, 0, false)
    ensures TagFree(TiptapHtmlToTelegram(tiptapHtml))
  {
    if tiptapHtml != "" {
      var u := Unwrapped(tiptapHtml);
      UnwrappedTagFree(tiptapHtml);
      CollapseKeepsTagFree(u, 0);
      var c := ReplaceAll(NewlineRun, "\n\n", u);
      var k := TrimInside(c);
      TagFreeSlice(c, k, k + |Trim(c)|);
    }
  }

  /**
   * Why alternation is needed: the replacement does not rescan, so removing
   * the inner `<p>` of `<<p>p>` joins a new `<p>` out of its neighbours.
   */
  lemma StrayTagSurvives()
    ensures !Alternating("<<p>p>", 0, false)
    ensures ReplaceAll(ParagraphTag, "", "<<p>p>") == "<p>"
  {
    var s := "<<p>p>";
    assert MatchLen(ParagraphTag, s, 0) == 0;
    assert MatchLen(ParagraphTag, s, 1) == 3;
    assert MatchLen(ParagraphTag, s, 4) == 0;
    assert MatchLen(ParagraphTag, s, 5) == 0;
    assert ReplaceFrom(ParagraphTag, "", s, 6) == [];
    assert ReplaceFrom(ParagraphTag, "", s, 5) == ">";
    assert ReplaceFrom(ParagraphTag, "", s, 4) == "p>";
    assert ReplaceFrom(ParagraphTag, "", s, 1) == "p>";
  }

  // ---------------------------------------------------------------- the round trip

  /** A replacement that finds nothing between `i` and `k` copies that stretch. */
  lemma {:induction false} ReplaceKeeps(p: Pattern, repl: string, s: string, i: nat, k: nat)
    requires i <= k <= |s|
    requires forall j :: i <= j < k ==> MatchLen(p, s, j) == 0
    ensures ReplaceFrom(p, repl, s, i) == s[i..k] + ReplaceFrom(p, repl, s, k)
    decreases k - i
  {
    if i < k {
      assert MatchLen(p, s, i) == 0;
      ReplaceStep(p, repl, s, i);
      ReplaceKeeps(p, repl, s, i + 1, k);
      assert s[i..k] == [s[i]] + s[i + 1..k];
      Prepend(ReplaceFrom(p, repl, s, i), ReplaceFrom(p, repl, s, i + 1), ReplaceFrom(p, repl, s, k), s[i], s[i + 1..k]);
    } else {
      assert s[i..k] == [];
    }
  }

  /** A character in front of `t + c` is `[ch] + t` in front of `c`. */
  lemma Prepend(a: string, b: string, c: string, ch: char, t: string)
    requires a == [ch] + b && b == t + c
    ensures a == ([ch] + t) + c
  {
  }

  /** A replacement that finds nothing copies the text. */
  lemma ReplaceNothing(p: Pattern, repl: string, s: string)
    requires forall j :: 0 <= j < |s| ==> MatchLen(p, s, j) == 0
    ensures ReplaceAll(p, repl, s) == s
  {
    ReplaceKeeps(p, repl, s, 0, |s|);
    assert s[0..|s|] == s;
  }

  /** Every `<` of `b` opens a `<br>`. */
  predicate BreaksOnly(b: string) {
    forall k :: 0 <= k < |b| && b[k] == '<' ==> k + 4 <= |b| && b[k + 1] == 'b' && b[k + 2] == 'r' && b[k + 3] == '>'
  }

  /** In the line-broken text of bracket-free text, every `<` opens a `<br>`. */
  lemma {:induction false} BreakLinesShape(x: string)
    requires BracketFree(x)
    ensures BreaksOnly(BreakLines(x))
  {
    if x != [] {
      BreakLinesShape(x[1..]);
      assert BracketFree(x[1..]);
      var piece := if x[0] == '\n' then "<br>" else [x[0]];
      var rest := BreakLines(x[1..]);
      var b := piece + rest;
      forall k | 0 <= k < |b| && b[k] == '<'
        ensures k + 4 <= |b| && b[k + 1] == 'b' && b[k + 2] == 'r' && b[k + 3] == '>'
      {
        if k >= |piece| {
          var k' := k - |piece|;
          assert rest[k'] == b[k];
          assert k' + 4 <= |rest|;
          assert b[k + 1] == rest[k' + 1] && b[k + 2] == rest[k' + 2] && b[k + 3] == rest[k' + 3];
        } else {
          assert b[k] == piece[k];
        }
      }
    }
  }

  /** One step of the scan. */
  lemma ReplaceStep(p: Pattern, repl: string, s: string, i: nat)
    requires i < |s|
    ensures MatchLen(p, s, i) == 0 ==> ReplaceFrom(p, repl, s, i) == [s[i]] + ReplaceFrom(p, repl, s, i + 1)
    ensures MatchLen(p, s, i) > 0 ==> ReplaceFrom(p, repl, s, i) == repl + ReplaceFrom(p, repl, s, i + MatchLen(p, s, i))
  {
  }

  /** A `<br>` is a line-break match of length four. */
  lemma BreakMatch(s: string, idx: nat)
    requires idx + 4 <= |s| && s[idx] == '<' && s[idx + 1] == 'b' && s[idx + 2] == 'r' && s[idx + 3] == '>'
    ensures MatchLen(LineBreak, s, idx) == 4
  {
    assert SpacesEnd(s, idx + 3) == idx + 3;
  }

  /** `b` is spelled in `s` from `idx`. */
  predicate CopyAt(s: string, idx: nat, b: string) {
    idx + |b| <= |s| && forall m :: 0 <= m < |b| ==> s[idx + m] == b[m]
  }

  /** The `<br>` replacement turns line-broken bracket-free text back into the text. */
  lemma {:induction false} BreaksBack(s: string, idx: nat, x: string, e: nat)
    requires BracketFree(x)
    requires CopyAt(s, idx, BreakLines(x)) && e == idx + |BreakLines(x)|
    ensures ReplaceFrom(LineBreak, "\n", s, idx) == x + ReplaceFrom(LineBreak, "\n", s, e)
    decreases |x|
  {
    if x != [] {
      var w := BreakBack(s, idx, x);
      BreaksBack(s, idx + w, x[1..], e);
      ChainAt(s, idx, idx + w, e, x);
    } else {
      Chain0(ReplaceFrom(LineBreak, "\n", s, idx), x);
    }
  }

  /** The first character of `x` comes back from the first `w` characters of its line-broken form. */
  lemma BreakBack(s: string, idx: nat, x: string) returns (w: nat)
    requires x != [] && BracketFree(x)
    requires CopyAt(s, idx, BreakLines(x))
    ensures BracketFree(x[1..]) && |BreakLines(x)| == w + |BreakLines(x[1..])|
    ensures CopyAt(s, idx + w, BreakLines(x[1..]))
    ensures ReplaceFrom(LineBreak, "\n", s, idx) == [x[0]] + ReplaceFrom(LineBreak, "\n", s, idx + w)
  {
    w := if x[0] == '\n' then 4 else 1;
    var piece := if x[0] == '\n' then "<br>" else [x[0]];
    var b := BreakLines(x);
    var rest := BreakLines(x[1..]);
    assert b == piece + rest;
    assert forall m :: 0 <= m < |rest| ==> b[w + m] == rest[m];
    assert BracketFree(x[1..]);
    if x[0] == '\n' {
      assert b[0] == '<' && b[1] == 'b' && b[2] == 'r' && b[3] == '>';
      BreakMatchBack(s, idx);
    } else {
      assert b[0] == x[0];
      MatchNeedsBracket(LineBreak, s, idx);
      ReplaceStep(LineBreak, "\n", s, idx);
    }
  }

  /** A `<br>` at `idx` comes back as a newline. */
  lemma BreakMatchBack(s: string, idx: nat)
    requires idx + 4 <= |s| && s[idx] == '<' && s[idx + 1] == 'b' && s[idx + 2] == 'r' && s[idx + 3] == '>'
    ensures ReplaceFrom(LineBreak, "\n", s, idx) == "\n" + ReplaceFrom(LineBreak, "\n", s, idx + 4)
  {
    BreakMatch(s, idx);
    ReplaceStep(LineBreak, "\n", s, idx);
  }

  lemma Chain(a: string, b: string, c: string, x: string)
    requires x != [] && a == [x[0]] + b && b == x[1..] + c
    ensures a == x + c
  {
    assert x == [x[0]] + x[1..];
  }

  /** `Chain` for the replacement from three indices of `s`. */
  lemma ChainAt(s: string, idx: nat, mid: nat, e: nat, x: string)
    requires x != []
    requires ReplaceFrom(LineBreak, "\n", s, idx) == [x[0]] + ReplaceFrom(LineBreak, "\n", s, mid)
    requires ReplaceFrom(LineBreak, "\n", s, mid) == x[1..] + ReplaceFrom(LineBreak, "\n", s, e)
    ensures ReplaceFrom(LineBreak, "\n", s, idx) == x + ReplaceFrom(LineBreak, "\n", s, e)
  {
    Chain(ReplaceFrom(LineBreak, "\n", s, idx), ReplaceFrom(LineBreak, "\n", s, mid), ReplaceFrom(LineBreak, "\n", s, e), x);
  }

  lemma Chain0(a: string, x: string)
    requires x == []
    ensures a == x + a
  {
  }

  /** Only a `<` starts a tag match. */
  lemma MatchNeedsBracket(p: Pattern, s: string, i: nat)
    requires p != NewlineRun && i < |s| && s[i] != '<'
    ensures MatchLen(p, s, i) == 0
  {
  }

  /**
   * Text the round trip restores: no angle brackets, no blank line, and no
   * white space at either end.
   */
  predicate PlainParagraph(x: string) {
    x != [] && BracketFree(x) && !IsSpace(x[0]) && !IsSpace(x[|x| - 1])
    && forall j :: 0 <= j < |x| - 1 ==> !(x[j] == '\n' && x[j + 1] == '\n')
  }

  /** Where the angle brackets of a plain paragraph's editor HTML are. */
  lemma ParagraphBrackets(x: string)
    requires PlainParagraph(x)
    ensures var s := Paragraph(x);
            |s| == |BreakLines(x)| + 7 && s[3] == x[0]
            && s[0] == '<' && s[1] == 'p' && s[2] == '>'
            && s[|s| - 4] == '<' && s[|s| - 3] == '/' && s[|s| - 2] == 'p' && s[|s| - 1] == '>'
            && (forall m :: 0 <= m < |BreakLines(x)| ==> s[3 + m] == BreakLines(x)[m])
            && forall j :: 0 < j < |s| - 4 && s[j] == '<' ==> 3 <= j && j + 4 <= |s| - 4 && s[j + 1] == 'b' && s[j + 2] == 'r' && s[j + 3] == '>'
  {
    var b := BreakLines(x);
    var s := Paragraph(x);
    BreakLinesShape(x);
    assert x[0] != '\n';
    assert b == [x[0]] + BreakLines(x[1..]);
    assert forall m :: 0 <= m < |b| ==> s[3 + m] == b[m];
  }

  /** The first two removals find nothing in a plain paragraph. */
  lemma PlainKeepsBlankRemovals(x: string)
    requires PlainParagraph(x)
    ensures ReplaceAll(EmptyBreakParagraph, "", Paragraph(x)) == Paragraph(x)
    ensures ReplaceAll(BlankParagraph, "", Paragraph(x)) == Paragraph(x)
  {
    var s := Paragraph(x);
    ParagraphBrackets(x);
    assert s[0] == '<' && s[1] == 'p' && s[2] == '>' && s[|s| - 3] == '/';
    assert SpacesEnd(s, 3) == 3;
    forall j | 0 <= j < |s|
      ensures MatchLen(EmptyBreakParagraph, s, j) == 0 && MatchLen(BlankParagraph, s, j) == 0
    {
      if j > 0 && s[j] == '<' && j != |s| - 4 {
        assert s[j + 1] == 'b';
      }
    }
    ReplaceNothing(EmptyBreakParagraph, "", s);
    ReplaceNothing(BlankParagraph, "", s);
  }

  /** The line breaks of a plain paragraph come back as newlines. */
  lemma PlainBreaksBack(x: string)
    requires PlainParagraph(x)
    ensures ReplaceAll(LineBreak, "\n", Paragraph(x)) == "<p>" + x + "</p>"
  {
    var s := Paragraph(x);
    var b := BreakLines(x);
    ParagraphBrackets(x);
    var e := 3 + |b|;
    OpenTagKept(s);
    BreaksBack(s, 3, x, e);
    CloseTagKept(s, e);
    Chain3("<p>", x, "</p>", ReplaceFrom(LineBreak, "\n", s, 0), ReplaceFrom(LineBreak, "\n", s, 3), ReplaceFrom(LineBreak, "\n", s, e));
  }

  /** The `<br>` replacement copies an opening `<p>`. */
  lemma OpenTagKept(s: string)
    requires 3 <= |s| && s[0] == '<' && s[1] == 'p' && s[2] == '>'
    ensures ReplaceFrom(LineBreak, "\n", s, 0) == "<p>" + ReplaceFrom(LineBreak, "\n", s, 3)
  {
    assert !IsB(s[1]);
    assert BreakEnd(s, 0) == 0;
    MatchNeedsBracket(LineBreak, s, 1);
    MatchNeedsBracket(LineBreak, s, 2);
    var r0, r1, r2, r3 := ReplaceFrom(LineBreak, "\n", s, 0), ReplaceFrom(LineBreak, "\n", s, 1),
                          ReplaceFrom(LineBreak, "\n", s, 2), ReplaceFrom(LineBreak, "\n", s, 3);
    ReplaceStep(LineBreak, "\n", s, 0);
    ReplaceStep(LineBreak, "\n", s, 1);
    ReplaceStep(LineBreak, "\n", s, 2);
    Keep3(r0, r1, r2, r3, s[0], s[1], s[2]);
  }

  lemma Keep3(r0: string, r1: string, r2: string, r3: string, c0: char, c1: char, c2: char)
    requires r0 == [c0] + r1 && r1 == [c1] + r2 && r2 == [c2] + r3
    ensures r0 == [c0, c1, c2] + r3
  {
  }

  /** The `<br>` replacement copies a closing `</p>` at the end. */
  lemma CloseTagKept(s: string, e: nat)
    requires e + 4 == |s| && s[e] == '<' && s[e + 1] == '/' && s[e + 2] == 'p' && s[e + 3] == '>'
    ensures ReplaceFrom(LineBreak, "\n", s, e) == "</p>"
  {
    ReplaceKeeps(LineBreak, "\n", s, e, |s|);
    assert s[e..|s|] == "</p>";
  }

  lemma Chain3(u: string, x: string, v: string, a: string, b: string, c: string)
    requires a == u + b && b == x + c && c == v
    ensures a == u + x + v
  {
  }

  /** The last steps strip the two tags of `<p>…</p>` around plain text and change nothing else. */
  lemma PlainUnwraps(x: string)
    requires PlainParagraph(x)
    ensures var s := "<p>" + x + "</p>";
            ReplaceAll(ParagraphBoundary, "\n\n", s) == s
            && ReplaceAll(ParagraphTag, "", s) == x
  {
    var s := "<p>" + x + "</p>";
    var e := 3 + |x|;
    assert forall m :: 0 <= m < |x| ==> s[3 + m] == x[m];
    assert s[0] == '<' && s[1] == 'p' && s[2] == '>';
    assert s[e] == '<' && s[e + 1] == '/' && s[e + 2] == 'p' && s[e + 3] == '>';
    assert SpacesEnd(s, |s|) == |s|;
    ReplaceNothing(ParagraphBoundary, "\n\n", s);
    assert MatchLen(ParagraphTag, s, 0) == 3;
    ReplaceKeeps(ParagraphTag, "", s, 3, e);
    assert MatchLen(ParagraphTag, s, e) == 4;
    assert s[3..e] == x;
  }

  /** Plain text has no newline run to collapse. */
  lemma PlainKeepsNewlines(x: string)
    requires PlainParagraph(x)
    ensures ReplaceAll(NewlineRun, "\n\n", x) == x
  {
    forall j | 0 <= j < |x|
      ensures MatchLen(NewlineRun, x, j) == 0
    {
      if x[j] == '\n' && j + 1 < |x| {
        assert NewlinesEnd(x, j) == j + 1;
      }
    }
    ReplaceNothing(NewlineRun, "\n\n", x);
  }

  /** Plain text without a blank line is one block. */
  lemma PlainIsOneBlock(x: string)
    requires PlainParagraph(x)
    ensures Split(x, "\n\n") == [x]
  {
    forall j
      ensures !OccursAt(x, "\n\n", j)
    {
      OccursAtPair(x, "\n\n", j);
    }
  }

  /**
   * A paragraph of plain text (no angle brackets, no blank line, trimmed)
   * goes into the editor as one `<p>` and comes back unchanged.
   */
  lemma PlainParagraphRoundTrip(x: string)
    requires PlainParagraph(x)
    ensures TelegramHtmlToTiptap(x) == Paragraph(x)
    ensures TiptapHtmlToTelegram(TelegramHtmlToTiptap(x)) == x
  {
    PlainIsOneBlock(x);
    TiptapParagraphs(x);
    assert [x][1..] == [];
    assert Paragraphs([x]) == Paragraph(x) + "";
    PlainKeepsBlankRemovals(x);
    PlainBreaksBack(x);
    PlainUnwraps(x);
    assert Unwrapped(Paragraph(x)) == x;
    PlainKeepsNewlines(x);
    TrimNoSpace(x);
  }

  // ---------------------------------------------------------------- choosing the conversion

  /** `\w`. */
  predicate IsWordChar(c: char) {
    'a' <= c <= 'z' || 'A' <= c <= 'Z' || '0' <= c <= '9' || c == '_'
  }

  /** The alternatives of `looksLikeHtml`, in lower case. */
  const HtmlTagNames: seq<string> := ["b", "i", "u", "s", "a ", "code", "tg-spoiler", "strong", "em", "pre"]

  /** `c` matches the pattern character `d` ignoring ASCII case. */
  predicate SameIgnoringCase(c: char, d: char) {
    c == d || ('a' <= d <= 'z' && c as int == d as int - 32)
  }

  /** `name` spelled at `j`, ignoring case. */
  predicate NameAt(t: string, j: nat, name: string) {
    j + |name| <= |t| && forall k :: 0 <= k < |name| ==> SameIgnoringCase(t[j + k], name[k])
  }

  /** `\b` at position `e`: a word character on exactly one side. */
  predicate BoundaryAt(t: string, e: nat) {
    var before := 0 < e <= |t| && IsWordChar(t[e - 1]);
    var after := e < |t| && IsWordChar(t[e]);
    before != after
  }

  /** `/<(b|i|u|s|a |code|tg-spoiler|strong|em|pre)\b/i` matches at `j`. */
  predicate HtmlTagAt(t: string, j: nat) {
    j < |t| && t[j] == '<'
    && exists n :: 0 <= n < |HtmlTagNames| && NameAt(t, j + 1, HtmlTagNames[n]) && BoundaryAt(t, j + 1 + |HtmlTagNames[n]|)
  }

  /** `looksLikeHtml`. */
  predicate LooksLikeHtml(text: string) {
    exists j :: 0 <= j < |text| && HtmlTagAt(text, j)
  }

  /** Text without a `<` is never taken for HTML, so it goes through the Markdown conversion. */
  lemma NoBracketNotHtml(text: string)
    requires forall k :: 0 <= k < |text| ==> text[k] != '<'
    ensures !LooksLikeHtml(text)
  {
  }

  /** A bold tag in either case anywhere in the text makes it HTML. */
  lemma BoldTagLooksLikeHtml(before: string, c: char, after: string)
    requires IsB(c)
    ensures LooksLikeHtml(before + ['<', c, '>'] + after)
  {
    var t := before + ['<', c, '>'] + after;
    var j := |before|;
    assert t[j] == '<' && t[j + 1] == c && t[j + 2] == '>';
    assert HtmlTagNames[0] == "b";
    assert NameAt(t, j + 1, HtmlTagNames[0]);
    assert BoundaryAt(t, j + 2);
    assert HtmlTagAt(t, j);
  }

  /**
   * `prepareContentForEditor`; `markdownToHtml` stands for
   * `telegramMarkdownToHtml`, which is not part of this model.
   */
  function PrepareContentForEditor(value: string, markdownToHtml: string -> string): (r: string)
    ensures value == "" ==> r == "<p></p>"
    ensures value != "" && LooksLikeHtml(value) ==> r == TelegramHtmlToTiptap(value)
  {
    if value == "" then "<p></p>"
    else if LooksLikeHtml(value) then TelegramHtmlToTiptap(value)
    else TelegramHtmlToTiptap(markdownToHtml(value))
  }

  /** Whatever the stored value, the editor receives paragraphs: `<p>` first, `</p>` last, and no newline. */
  lemma EditorGetsParagraphs(value: string, markdownToHtml: string -> string)
    ensures var r := PrepareContentForEditor(value, markdownToHtml);
            StartsWith(r, "<p>") && EndsWith(r, "</p>") && forall k :: 0 <= k < |r| ==> r[k] != '\n'
  {
    if value == "" {
      TiptapParagraphs("");
    } else if LooksLikeHtml(value) {
      TiptapParagraphs(value);
    } else {
      TiptapParagraphs(markdownToHtml(value));
    }
  }
}
