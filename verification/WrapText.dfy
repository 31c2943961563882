/** Greedy line wrapping (crates/episcience-api/src/routes/export.rs). Widths
    are counted in UTF-8 bytes, as the code counts them. */
module WrapText {
  import opened Base

  type Word = w: string | w != "" witness "w"

  // ── Widths ──────────────────────────────────────────────────────────────

  function CharBytes(c: char): nat {
    if c as int < 0x80 then 1 else if c as int < 0x800 then 2 else if c as int < 0x1_0000 then 3 else 4
  }

  function Bytes(s: string): nat {
    if s == "" then 0 else Bytes(s[..|s| - 1]) + CharBytes(s[|s| - 1])
  }

  function Join(words: seq<Word>): string {
    if words == [] then ""
    else if |words| == 1 then words[0]
    else Join(words[..|words| - 1]) + " " + words[|words| - 1]
  }

  /** The width of the words set on one line. */
  function Width(words: seq<Word>): nat {
    if words == [] then 0
    else if |words| == 1 then Bytes(words[0])
    else Width(words[..|words| - 1]) + 1 + Bytes(words[|words| - 1])
  }

  lemma {:induction false} BytesAppend(a: string, b: string)
    ensures Bytes(a + b) == Bytes(a) + Bytes(b)
  {
    if b == "" {
      assert a + b == a;
    } else {
      assert (a + b)[..|a + b| - 1] == a + b[..|b| - 1];
      BytesAppend(a, b[..|b| - 1]);
    }
  }

  lemma {:induction false} JoinWidth(words: seq<Word>)
    ensures Bytes(Join(words)) == Width(words)
    ensures words != [] ==> Join(words) != ""
  {
    if |words| > 1 {
      var before := Join(words[..|words| - 1]);
      JoinWidth(words[..|words| - 1]);
      BytesAppend(before, " ");
      assert Bytes(" ") == 1 by {
        assert " "[..0] == "";
      }
      BytesAppend(before + " ", words[|words| - 1]);
    }
  }

  // ── Breakings ───────────────────────────────────────────────────────────

  /** A line may hold one word of any width, or several within the width. */
  predicate Fits(line: seq<Word>, width: nat) {
    |line| == 1 || (line != [] && Width(line) <= width)
  }

  function Flatten(lines: seq<seq<Word>>): seq<Word> {
    if lines == [] then [] else lines[0] + Flatten(lines[1..])
  }

  /** The words, in order, on lines that fit. */
  ghost predicate IsBreaking(words: seq<Word>, lines: seq<seq<Word>>, width: nat) {
    Flatten(lines) == words && forall i :: 0 <= i < |lines| ==> Fits(lines[i], width)
  }

  /** Where the line begun at `i`, filled up to `k`, ends. */
  function LineEnd(words: seq<Word>, i: nat, k: nat, width: nat): (e: nat)
    requires i < k <= |words|
    ensures k <= e <= |words|
    decreases |words| - k
  {
    if k < |words| && Width(words[i..k]) + 1 + Bytes(words[k]) <= width then LineEnd(words, i, k + 1, width) else k
  }

  function Greedy(words: seq<Word>, i: nat, width: nat): seq<seq<Word>>
    requires i <= |words|
    decreases |words| - i
  {
    if i == |words| then []
    else
      var e := LineEnd(words, i, i + 1, width);
      [words[i..e]] + Greedy(words, e, width)
  }

  function Rendered(lines: seq<seq<Word>>): seq<string> {
    seq(|lines|, i requires 0 <= i < |lines| => Join(lines[i]))
  }

  // ── The loop ────────────────────────────────────────────────────────────

  method WrapParagraph(words: seq<Word>, width: nat) returns (lines: seq<string>)
    ensures lines == Rendered(Greedy(words, 0, width))
  {
    hide Width, Bytes, Join, Greedy, Rendered, LineEnd;
    lines := [];
    var current := "";
    ghost var start := 0;
    for k := 0 to |words|
      invariant start <= k && (k == 0 ==> start == 0 && lines == []) && (k > 0 ==> start < k)
      invariant current == if k == 0 then "" else Join(words[start..k])
      invariant Rendered(Greedy(words, 0, width)) == lines + Rendered(Greedy(words, start, width))
      invariant k > 0 ==> LineEnd(words, start, start + 1, width) == LineEnd(words, start, k, width)
    {
      if k > 0 {
        JoinWidth(words[start..k]);
        LineEndStep(words, start, k, width);
      }
      if current == "" {
        JoinOne(words, k);
        current := words[k];
      } else if Bytes(current) + 1 + Bytes(words[k]) > width {
        RenderedFirst(words, start, k, width);
        lines := lines + [current];
        JoinOne(words, k);
        current := words[k];
        start := k;
      } else {
        JoinMore(words, start, k);
        current := current + " ";
        current := current + words[k];
      }
    }
    NoMoreLines(words, width);
    if words != [] {
      JoinWidth(words[start..|words|]);
      LineEndFull(words, start, width);
      RenderedFirst(words, start, |words|, width);
    }
    if current != "" {
      lines := lines + [current];
    }
  }

  lemma LineEndStep(words: seq<Word>, i: nat, k: nat, width: nat)
    requires i < k < |words|
    ensures LineEnd(words, i, k, width)
         == if Width(words[i..k]) + 1 + Bytes(words[k]) <= width then LineEnd(words, i, k + 1, width) else k
  {
  }

  lemma LineEndFull(words: seq<Word>, i: nat, width: nat)
    requires i < |words|
    ensures LineEnd(words, i, |words|, width) == |words|
  {
  }

  lemma NoMoreLines(words: seq<Word>, width: nat)
    ensures Rendered(Greedy(words, |words|, width)) == []
  {
  }

  lemma JoinOne(words: seq<Word>, k: nat)
    requires k < |words|
    ensures Join(words[k..k + 1]) == words[k]
  {
  }

  lemma JoinMore(words: seq<Word>, i: nat, k: nat)
    requires i < k < |words|
    ensures Join(words[i..k + 1]) == Join(words[i..k]) + " " + words[k]
  {
    assert words[i..k + 1][..k - i] == words[i..k];
  }

  lemma RenderedFirst(words: seq<Word>, i: nat, e: nat, width: nat)
    requires i < e <= |words| && LineEnd(words, i, i + 1, width) == e
    ensures Rendered(Greedy(words, i, width)) == [Join(words[i..e])] + Rendered(Greedy(words, e, width))
  {
    hide Join;
  }

  // ── The text ────────────────────────────────────────────────────────────

  /** Unicode's White_Space. */
  predicate IsWhite(c: char) {
    || '\t' <= c <= '\r' || c == ' '
    || c as int in {0x85, 0xA0, 0x1680, 0x2028, 0x2029, 0x202F, 0x205F, 0x3000}
    || 0x2000 <= c as int <= 0x200A
  }

  /** The twenty-five code points of White_Space. */
  lemma WhiteSpaceIs(c: char)
    ensures IsWhite(c) <==> c as int in {
      0x09, 0x0A, 0x0B, 0x0C, 0x0D, 0x20, 0x85, 0xA0, 0x1680,
      0x2000, 0x2001, 0x2002, 0x2003, 0x2004, 0x2005, 0x2006, 0x2007, 0x2008, 0x2009, 0x200A,
      0x2028, 0x2029, 0x202F, 0x205F, 0x3000}
  {
  }

  function LineLength(text: string): (n: nat)
    ensures n <= |text|
    ensures n < |text| ==> text[n] == '\n'
  {
    if text == "" || text[0] == '\n' then 0 else 1 + LineLength(text[1..])
  }

  function WithoutCr(line: string): string {
    if line != "" && line[|line| - 1] == '\r' then line[..|line| - 1] else line
  }

  /** The lines of a text; a final line end starts no further line, and a
      carriage return before a line end belongs to it. */
  function Lines(text: string): seq<string>
    decreases |text|
  {
    var n := LineLength(text);
    if text == "" then []
    else if n == |text| then [text]
    else [WithoutCr(text[..n])] + Lines(text[n + 1..])
  }

  function WordLength(s: string): (n: nat)
    ensures n <= |s|
    ensures forall i :: 0 <= i < n ==> !IsWhite(s[i])
    ensures n < |s| ==> IsWhite(s[n])
  {
    if s == "" || IsWhite(s[0]) then 0 else 1 + WordLength(s[1..])
  }

  predicate NoWhite(words: seq<Word>) {
    forall i, j :: 0 <= i < |words| && 0 <= j < |words[i]| ==> !IsWhite(words[i][j])
  }

  /** The stretches between white space. */
  function Words(s: string): (words: seq<Word>)
    ensures NoWhite(words)
    decreases |s|
  {
    if s == "" then []
    else if IsWhite(s[0]) then Words(s[1..])
    else
      var n := WordLength(s);
      [s[..n]] + Words(s[n..])
  }

  function ParagraphWords(paragraphs: seq<string>): seq<seq<Word>> {
    seq(|paragraphs|, i requires 0 <= i < |paragraphs| => Words(paragraphs[i]))
  }

  /** The whole text: every paragraph is wrapped, and a blank one is an empty
      line. */
  method Wrap(text: string, width: nat) returns (lines: seq<string>)
    ensures lines == WrappedText(ParagraphWords(Lines(text)), width)
  {
    lines := [];
    var paragraphs := Lines(text);
    ghost var all := ParagraphWords(paragraphs);
    for p := 0 to |paragraphs|
      invariant lines == WrappedText(all[..p], width)
    {
      assert all[..p + 1][..p] == all[..p];
      var words := Words(paragraphs[p]);
      if words == [] {
        lines := lines + [""];
      } else {
        var wrapped := WrapParagraph(words, width);
        lines := lines + wrapped;
      }
    }
    assert all[..|all|] == all;
  }

  function WrappedText(paragraphs: seq<seq<Word>>, width: nat): seq<string> {
    if paragraphs == [] then []
    else
      var last := paragraphs[|paragraphs| - 1];
      WrappedText(paragraphs[..|paragraphs| - 1], width)
      + if last == [] then [""] else Rendered(Greedy(last, 0, width))
  }

  // ── Wrapping keeps the text ─────────────────────────────────────────────

  /** The words of some lines, in order. */
  function AllWords(lines: seq<string>): seq<Word> {
    if lines == [] then [] else AllWords(lines[..|lines| - 1]) + Words(lines[|lines| - 1])
  }

  lemma {:induction false} AllWordsConcat(a: seq<string>, b: seq<string>)
    ensures AllWords(a + b) == AllWords(a) + AllWords(b)
    decreases |b|
  {
    if b == [] {
      assert a + b == a;
    } else {
      assert (a + b)[..|a + b| - 1] == a + b[..|b| - 1];
      AllWordsConcat(a, b[..|b| - 1]);
    }
  }

  lemma {:induction false} WordLengthIs(s: string, n: nat)
    requires n <= |s| && (forall i :: 0 <= i < n ==> !IsWhite(s[i])) && (n < |s| ==> IsWhite(s[n]))
    ensures WordLength(s) == n
  {
    if n > 0 {
      WordLengthIs(s[1..], n - 1);
    }
  }

  /** Putting a word and a space before a line adds that word. */
  lemma WordsOfFirst(word: Word, rest: string)
    requires forall j :: 0 <= j < |word| ==> !IsWhite(word[j])
    ensures Words(word) == [word]
    ensures Words(word + " " + rest) == [word] + Words(rest)
  {
    WordLengthIs(word, |word|);
    assert word[..|word|] == word && word[|word|..] == "";
    var s := word + " " + rest;
    WordLengthIs(s, |word|);
    assert s[..|word|] == word && s[|word|..][1..] == rest && s[|word|..][0] == ' ';
  }

  lemma {:induction false} JoinFromFront(words: seq<Word>)
    requires |words| > 1
    ensures Join(words) == words[0] + " " + Join(words[1..])
  {
    if |words| > 2 {
      var n := |words| - 1;
      JoinFromFront(words[..n]);
      assert words[..n][1..] == words[1..][..n - 1];
    }
  }

  lemma {:induction false} WordsOfJoin(words: seq<Word>)
    requires NoWhite(words) && words != []
    ensures Words(Join(words)) == words
  {
    hide Words;
    if |words| == 1 {
      WordsOfFirst(words[0], "");
    } else {
      assert NoWhite(words[1..]) by {
        assert forall i :: 0 <= i < |words| - 1 ==> words[1..][i] == words[i + 1];
      }
      JoinFromFront(words);
      WordsOfFirst(words[0], Join(words[1..]));
      WordsOfJoin(words[1..]);
      assert words == [words[0]] + words[1..];
    }
  }

  lemma SliceHasNoWhite(words: seq<Word>, i: nat, e: nat)
    requires i <= e <= |words| && NoWhite(words)
    ensures NoWhite(words[i..e])
  {
    assert forall k :: 0 <= k < e - i ==> words[i..e][k] == words[i + k];
  }

  lemma {:induction false} WordsOfRendered(words: seq<Word>, i: nat, width: nat)
    requires i <= |words| && NoWhite(words)
    ensures AllWords(Rendered(Greedy(words, i, width))) == words[i..]
    decreases |words| - i
  {
    hide Words, Join, Rendered, Greedy, NoWhite, LineEnd, AllWords;
    if i == |words| {
      NoMoreLines(words, width);
      NoLines();
    } else {
      var e := LineEnd(words, i, i + 1, width);
      var line, rest := Join(words[i..e]), Rendered(Greedy(words, e, width));
      WordsOfRendered(words, e, width);
      RenderedFirst(words, i, e, width);
      SliceHasNoWhite(words, i, e);
      WordsOfJoin(words[i..e]);
      AllWordsConcat([line], rest);
      OneLine(line);
      assert words[i..] == words[i..e] + words[e..];
    }
  }

  lemma NoLines()
    ensures AllWords([]) == []
  {
  }

  lemma OneLine(line: string)
    ensures AllWords([line]) == Words(line)
  {
    assert [line][..0] == [];
  }

  lemma {:induction false} WordsOfParagraphs(paragraphs: seq<string>, width: nat)
    ensures AllWords(WrappedText(ParagraphWords(paragraphs), width)) == AllWords(paragraphs)
  {
    hide Words, Greedy, Rendered;
    if paragraphs != [] {
      var n := |paragraphs| - 1;
      var all, last := ParagraphWords(paragraphs), Words(paragraphs[n]);
      assert all[..n] == ParagraphWords(paragraphs[..n]);
      WordsOfParagraphs(paragraphs[..n], width);
      if last == [] {
        AllWordsConcat(WrappedText(all[..n], width), [""]);
        OneLine("");
        NoWordsInNothing();
      } else {
        AllWordsConcat(WrappedText(all[..n], width), Rendered(Greedy(last, 0, width)));
        WordsOfRendered(last, 0, width);
        assert last[0..] == last;
      }
    }
  }

  lemma NoWordsInNothing()
    ensures Words("") == []
  {
  }

  /** On the text itself: the wrapped lines have exactly the words of the text,
      in order. */
  lemma WrappingKeepsTheWords(text: string, width: nat)
    ensures AllWords(WrappedText(ParagraphWords(Lines(text)), width)) == AllWords(Lines(text))
  {
    WordsOfParagraphs(Lines(text), width);
  }

  // ── Greedy is a breaking, and the shortest one ──────────────────────────

  lemma {:induction false} LineEndFits(words: seq<Word>, i: nat, k: nat, width: nat)
    requires i < k <= |words| && Fits(words[i..k], width)
    ensures Fits(words[i..LineEnd(words, i, k, width)], width)
    decreases |words| - k
  {
    if k < |words| && Width(words[i..k]) + 1 + Bytes(words[k]) <= width {
      assert words[i..k + 1][..k - i] == words[i..k];
      LineEndFits(words, i, k + 1, width);
    }
  }

  lemma {:induction false} GreedyIsBreaking(words: seq<Word>, i: nat, width: nat)
    requires i <= |words|
    ensures IsBreaking(words[i..], Greedy(words, i, width), width)
    decreases |words| - i
  {
    if i < |words| {
      var e := LineEnd(words, i, i + 1, width);
      LineEndFits(words, i, i + 1, width);
      GreedyIsBreaking(words, e, width);
      var lines := Greedy(words, i, width);
      assert lines[0] == words[i..e] && lines[1..] == Greedy(words, e, width);
      assert words[i..e] + words[e..] == words[i..];
      forall j | 0 <= j < |lines| ensures Fits(lines[j], width) {
        if j > 0 {
          assert lines[j] == Greedy(words, e, width)[j - 1];
        }
      }
    }
  }

  lemma {:induction false} WidthFromFront(words: seq<Word>)
    requires |words| > 1
    ensures Width(words) == Bytes(words[0]) + 1 + Width(words[1..])
  {
    if |words| > 2 {
      WidthFromFront(words[..|words| - 1]);
      assert words[..|words| - 1][1..] == words[1..][..|words| - 2];
    }
  }

  /** Dropping words at the front keeps a line fitting. */
  lemma {:induction false} SuffixFits(words: seq<Word>, i: nat, j: nat, e: nat, width: nat)
    requires i <= j < e <= |words| && Fits(words[i..e], width)
    ensures Fits(words[j..e], width)
    decreases j - i
  {
    if i < j {
      WidthFromFront(words[i..e]);
      assert words[i..e][1..] == words[i + 1..e];
      SuffixFits(words, i + 1, j, e, width);
    }
  }

  /** A line that fits up to `e` and may be filled on reaches `e`. */
  lemma {:induction false} LineEndReaches(words: seq<Word>, i: nat, k: nat, e: nat, width: nat)
    requires i < k <= e <= |words| && Fits(words[i..e], width)
    ensures e <= LineEnd(words, i, k, width)
    decreases e - k
  {
    if k < e {
      PrefixNarrower(words, i, k + 1, e);
      assert words[i..k + 1][..k - i] == words[i..k];
      LineEndReaches(words, i, k + 1, e, width);
    } else {
      assert e <= LineEnd(words, i, k, width);
    }
  }

  lemma {:induction false} PrefixNarrower(words: seq<Word>, i: nat, k: nat, e: nat)
    requires i < k <= e <= |words|
    ensures Width(words[i..k]) <= Width(words[i..e])
    decreases e - k
  {
    if k < e {
      PrefixNarrower(words, i, k, e - 1);
      assert words[i..e][..e - 1 - i] == words[i..e - 1];
    }
  }

  /** Starting later never needs more lines. */
  lemma {:induction false} LaterNeedsNoMore(words: seq<Word>, i: nat, j: nat, width: nat)
    requires i <= j <= |words|
    ensures |Greedy(words, j, width)| <= |Greedy(words, i, width)|
    decreases |words| - i
  {
    if i < j && j < |words| {
      var e := LineEnd(words, i, i + 1, width);
      if e <= j {
        LaterNeedsNoMore(words, e, j, width);
      } else {
        LineEndFits(words, i, i + 1, width);
        SuffixFits(words, i, j, e, width);
        LineEndReaches(words, j, j + 1, e, width);
        LaterNeedsNoMore(words, e, LineEnd(words, j, j + 1, width), width);
      }
    }
  }

  lemma {:induction false} GreedyIsShortestFrom(words: seq<Word>, i: nat, lines: seq<seq<Word>>, width: nat)
    requires i <= |words| && IsBreaking(words[i..], lines, width)
    ensures |Greedy(words, i, width)| <= |lines|
    decreases |words| - i
  {
    if i < |words| {
      var k := i + |lines[0]|;
      assert words[i..] == lines[0] + Flatten(lines[1..]);
      assert words[i..k] == lines[0];
      assert words[k..] == Flatten(lines[1..]);
      GreedyIsShortestFrom(words, k, lines[1..], width);
      LineEndReaches(words, i, i + 1, k, width);
      LaterNeedsNoMore(words, k, LineEnd(words, i, i + 1, width), width);
    }
  }

  /** Wrapping keeps the words in order, sets each line to a single word or
      within the width, and uses the fewest lines of any breaking that does. */
  lemma WrappingIsOptimal(words: seq<Word>, width: nat)
    ensures IsBreaking(words, Greedy(words, 0, width), width)
    ensures |Rendered(Greedy(words, 0, width))| == |Greedy(words, 0, width)|
    ensures forall lines :: IsBreaking(words, lines, width) ==> |Greedy(words, 0, width)| <= |lines|
  {
    assert words[0..] == words;
    GreedyIsBreaking(words, 0, width);
    forall lines | IsBreaking(words, lines, width) ensures |Greedy(words, 0, width)| <= |lines| {
      GreedyIsShortestFrom(words, 0, lines, width);
    }
  }

  /** Why the breaking is the greedy one, and the only such: the first word of
      every next line would not have fit on the line before. */
  lemma {:induction false} NextWordWouldNotFit(words: seq<Word>, i: nat, width: nat, l: nat)
    requires i <= |words| && l + 1 < |Greedy(words, i, width)|
    ensures var lines := Greedy(words, i, width);
      lines[l] != [] && lines[l + 1] != [] && Width(lines[l]) + 1 + Bytes(lines[l + 1][0]) > width
    decreases |words| - i
  {
    hide Width, Bytes;
    var e := LineEnd(words, i, i + 1, width);
    LineEndStops(words, i, i + 1, width);
    if l > 0 {
      NextWordWouldNotFit(words, e, width, l - 1);
    }
  }

  lemma {:induction false} LineEndStops(words: seq<Word>, i: nat, k: nat, width: nat)
    requires i < k <= |words|
    ensures var e := LineEnd(words, i, k, width); e < |words| ==> Width(words[i..e]) + 1 + Bytes(words[e]) > width
    decreases |words| - k
  {
    hide Width, Bytes;
    if k < |words| && Width(words[i..k]) + 1 + Bytes(words[k]) <= width {
      LineEndStops(words, i, k + 1, width);
    }
  }

  // ── Bytes, lines and words, written out ─────────────────────────────────

  /** UTF-8, as section 3 of RFC 3629 gives it. */
  function Utf8(c: char): seq<Octet> {
    var n := c as int;
    if n <= 0x7F then [n]
    else if n <= 0x7FF then [0xC0 + n / 0x40, 0x80 + n % 0x40]
    else if n <= 0xFFFF then [0xE0 + n / 0x1000, 0x80 + n / 0x40 % 0x40, 0x80 + n % 0x40]
    else [0xF0 + n / 0x4_0000, 0x80 + n / 0x1000 % 0x40, 0x80 + n / 0x40 % 0x40, 0x80 + n % 0x40]
  }

  function Utf8Text(s: string): seq<Octet> {
    if s == "" then [] else Utf8Text(s[..|s| - 1]) + Utf8(s[|s| - 1])
  }

  /** A width is the length of the UTF-8 text. */
  lemma {:induction false} BytesMean(s: string)
    ensures Bytes(s) == |Utf8Text(s)|
  {
    if s != "" {
      BytesMean(s[..|s| - 1]);
    }
  }

  /** Words on a line are set apart by one space each. */
  lemma JoinMeans(words: seq<Word>)
    requires words != []
    ensures Join(words) == words[0] + if |words| == 1 then "" else " " + Join(words[1..])
  {
    if |words| > 1 {
      JoinFromFront(words);
      assert words[0] + " " + Join(words[1..]) == words[0] + (" " + Join(words[1..]));
    }
  }

  /** Text made of words and the white space around them. */
  function Spaced(gaps: seq<string>, words: seq<Word>): string
    requires |gaps| == |words| + 1
  {
    if words == [] then gaps[0] else gaps[0] + words[0] + Spaced(gaps[1..], words[1..])
  }

  predicate AllWhite(s: string) {
    forall i :: 0 <= i < |s| ==> IsWhite(s[i])
  }

  /** The gaps are white space, and only the outer two may be empty. */
  ghost predicate AreGaps(gaps: seq<string>) {
    && (forall i :: 0 <= i < |gaps| ==> AllWhite(gaps[i]))
    && forall i :: 0 < i < |gaps| - 1 ==> gaps[i] != ""
  }

  /** The gaps and the words make up the text, white space first if it starts
      with some. */
  ghost predicate Parts(s: string, gaps: seq<string>, words: seq<Word>) {
    && |gaps| == |words| + 1 && AreGaps(gaps) && s == Spaced(gaps, words)
    && (s != "" ==> (IsWhite(s[0]) <==> gaps[0] != ""))
  }

  /** The words of a line are what lies between its white space, in order. */
  lemma {:induction false} WordsMean(s: string) returns (gaps: seq<string>)
    ensures Parts(s, gaps, Words(s)) && NoWhite(Words(s))
    decreases |s|
  {
    hide Parts, IsWhite, Spaced;
    if s == "" {
      gaps := [""];
      NoParts();
    } else if IsWhite(s[0]) {
      var rest := WordsMean(s[1..]);
      gaps := PartsAfterWhite(s, rest, Words(s[1..]));
    } else {
      var n := WordLength(s);
      var rest := WordsMean(s[n..]);
      gaps := [""] + rest;
      PartsAfterWord(s, n, rest, Words(s[n..]));
      assert Words(s) == [s[..n]] + Words(s[n..]);
    }
  }

  lemma NoParts()
    ensures Parts("", [""], [])
  {
  }

  lemma PartsAfterWhite(s: string, rest: seq<string>, words: seq<Word>) returns (gaps: seq<string>)
    requires s != "" && IsWhite(s[0]) && Parts(s[1..], rest, words)
    ensures Parts(s, gaps, words)
  {
    hide IsWhite;
    gaps := [[s[0]] + rest[0]] + rest[1..];
    GapGrows(s[0], rest, words);
    assert s == [s[0]] + s[1..];
    forall i | 0 <= i < |gaps| ensures AllWhite(gaps[i]) && (0 < i < |gaps| - 1 ==> gaps[i] != "") {
      assert i > 0 ==> gaps[i] == rest[i];
    }
  }

  lemma PartsAfterWord(s: string, n: nat, rest: seq<string>, words: seq<Word>)
    requires 0 < n <= |s| && !IsWhite(s[0]) && (n < |s| ==> IsWhite(s[n])) && Parts(s[n..], rest, words)
    requires n == |s| ==> words == []
    ensures Parts(s, [""] + rest, [s[..n]] + words)
  {
    hide IsWhite;
    var gaps, all: seq<Word> := [""] + rest, [s[..n]] + words;
    assert gaps[1..] == rest && all[1..] == words && all[0] == s[..n];
    assert "" + s[..n] + s[n..] == s;
    forall i | 0 <= i < |gaps| ensures AllWhite(gaps[i]) && (0 < i < |gaps| - 1 ==> gaps[i] != "") {
      assert i > 0 ==> gaps[i] == rest[i - 1];
    }
  }

  lemma GapGrows(c: char, gaps: seq<string>, words: seq<Word>)
    requires |gaps| == |words| + 1
    ensures Spaced([[c] + gaps[0]] + gaps[1..], words) == [c] + Spaced(gaps, words)
  {
    var more := [[c] + gaps[0]] + gaps[1..];
    assert more[1..] == gaps[1..];
  }

  /** A text and its lines: each but the last ends with a line feed, with or
      without a carriage return before it; the last may have no end, and is
      then not empty. */
  function Ended(lines: seq<string>, ends: seq<string>): string
    requires |ends| == |lines|
  {
    if lines == [] then "" else lines[0] + ends[0] + Ended(lines[1..], ends[1..])
  }

  ghost predicate AreEnds(lines: seq<string>, ends: seq<string>) {
    && |ends| == |lines|
    && (forall i :: 0 <= i < |lines| ==> '\n' !in lines[i] && ends[i] in {"\n", "\r\n", ""})
    && (forall i :: 0 <= i < |lines| && ends[i] == "\n" ==> lines[i] == "" || lines[i][|lines[i]| - 1] != '\r')
    && (forall i :: 0 <= i < |lines| && ends[i] == "" ==> i == |lines| - 1 && lines[i] != "")
  }

  lemma {:induction false} LinesMean(text: string) returns (ends: seq<string>)
    ensures AreEnds(Lines(text), ends) && text == Ended(Lines(text), ends)
    decreases |text|
  {
    hide AreEnds, Ended, WithoutCr;
    var n := LineLength(text);
    NoFeedBefore(text);
    if text == "" {
      ends := [];
      NoEnds();
    } else if n == |text| {
      ends := [""];
      LastWithoutEnd(text);
    } else {
      var rest := LinesMean(text[n + 1..]);
      var end := EndOfLine(text, n);
      ends := [end] + rest;
      OneMoreLine(WithoutCr(text[..n]), end, Lines(text[n + 1..]), rest);
      assert text[..n] + "\n" + text[n + 1..] == text;
    }
  }

  lemma NoEnds()
    ensures AreEnds([], []) && Ended([], []) == ""
  {
  }

  lemma LastWithoutEnd(text: string)
    requires text != "" && '\n' !in text
    ensures AreEnds([text], [""]) && Ended([text], [""]) == text
  {
    assert text + "" + "" == text;
  }

  lemma EndOfLine(text: string, n: nat) returns (end: string)
    requires n < |text| && '\n' !in text[..n]
    ensures WithoutCr(text[..n]) + end == text[..n] + "\n" && '\n' !in WithoutCr(text[..n])
    ensures end == "\r\n" || (end == "\n" && (n == 0 || text[n - 1] != '\r') && WithoutCr(text[..n]) == text[..n])
  {
    end := if n > 0 && text[n - 1] == '\r' then "\r\n" else "\n";
    var line := text[..n];
    assert n > 0 ==> line == line[..n - 1] + [line[n - 1]];
  }

  lemma OneMoreLine(line: string, end: string, lines: seq<string>, ends: seq<string>)
    requires AreEnds(lines, ends) && '\n' !in line
    requires end == "\r\n" || (end == "\n" && (line == "" || line[|line| - 1] != '\r'))
    ensures AreEnds([line] + lines, [end] + ends)
    ensures Ended([line] + lines, [end] + ends) == line + end + Ended(lines, ends)
  {
    var all, more := [line] + lines, [end] + ends;
    assert all[1..] == lines && more[1..] == ends;
    forall i | 0 <= i < |all|
      ensures '\n' !in all[i] && more[i] in {"\n", "\r\n", ""}
      ensures more[i] == "\n" ==> all[i] == "" || all[i][|all[i]| - 1] != '\r'
      ensures more[i] == "" ==> i == |all| - 1 && all[i] != ""
    {
      assert i > 0 ==> all[i] == lines[i - 1] && more[i] == ends[i - 1];
    }
  }

  lemma {:induction false} NoFeedBefore(text: string)
    ensures '\n' !in text[..LineLength(text)]
  {
    if text != "" && text[0] != '\n' {
      NoFeedBefore(text[1..]);
      assert text[..LineLength(text)] == [text[0]] + text[1..][..LineLength(text[1..])];
    }
  }

  function EmptyLines(lines: seq<string>): nat {
    if lines == [] then 0 else EmptyLines(lines[..|lines| - 1]) + if lines[|lines| - 1] == "" then 1 else 0
  }

  function BlankParagraphs(paragraphs: seq<seq<Word>>): nat {
    if paragraphs == [] then 0
    else BlankParagraphs(paragraphs[..|paragraphs| - 1]) + if paragraphs[|paragraphs| - 1] == [] then 1 else 0
  }

  /** One empty line for every blank paragraph, and no other. */
  lemma {:induction false} EmptyLinesMean(paragraphs: seq<seq<Word>>, width: nat)
    ensures EmptyLines(WrappedText(paragraphs, width)) == BlankParagraphs(paragraphs)
  {
    hide Greedy, Rendered;
    if paragraphs != [] {
      var before, last := WrappedText(paragraphs[..|paragraphs| - 1], width), paragraphs[|paragraphs| - 1];
      EmptyLinesMean(paragraphs[..|paragraphs| - 1], width);
      if last == [] {
        assert (before + [""])[..|before|] == before;
      } else {
        NoEmptyLine(last, width);
        FullLinesAdd(before, Rendered(Greedy(last, 0, width)));
      }
    }
  }

  lemma NoEmptyLine(words: seq<Word>, width: nat)
    ensures "" !in Rendered(Greedy(words, 0, width))
  {
    hide Width, Bytes;
    var lines := Greedy(words, 0, width);
    GreedyIsBreaking(words, 0, width);
    forall i | 0 <= i < |lines| ensures Join(lines[i]) != "" {
      assert Fits(lines[i], width);
      JoinWidth(lines[i]);
    }
  }

  lemma {:induction false} FullLinesAdd(a: seq<string>, b: seq<string>)
    requires "" !in b
    ensures EmptyLines(a + b) == EmptyLines(a)
    decreases |b|
  {
    if b == [] {
      assert a + b == a;
    } else {
      assert (a + b)[..|a + b| - 1] == a + b[..|b| - 1];
      FullLinesAdd(a, b[..|b| - 1]);
    }
  }
}
