/** wrapText of the command-line client: wrapping text at word boundaries. */
module TextWrap {
  import opened Text

  const DEFAULT_WIDTH := 80

  // ---------- words ----------

  function WordLength(s: string): (n: nat)
    ensures n <= |s| && (n < |s| ==> IsSpace(s[n]))
    ensures forall i :: 0 <= i < n ==> !IsSpace(s[i])
  {
    if s == "" || IsSpace(s[0]) then 0 else 1 + WordLength(s[1..])
  }

  /** strings.Fields. */
  function Fields(s: string): seq<string>
    decreases |s|
  {
    if s == "" then []
    else if IsSpace(s[0]) then Fields(s[1..])
    else [s[..WordLength(s)]] + Fields(s[WordLength(s)..])
  }

  predicate IsWord(s: string) {
    s != "" && forall i :: 0 <= i < |s| ==> !IsSpace(s[i])
  }

  predicate AreWords(words: seq<string>) {
    forall i :: 0 <= i < |words| ==> IsWord(words[i])
  }

  lemma {:induction false} FieldsAreWords(s: string)
    ensures AreWords(Fields(s))
    decreases |s|
  {
    if s == "" {
    } else if IsSpace(s[0]) {
      FieldsAreWords(s[1..]);
    } else {
      FieldsAreWords(s[WordLength(s)..]);
    }
  }

  lemma {:induction false} WordLengthBefore(a: string, space: char, b: string)
    requires IsSpace(space)
    ensures WordLength(a + [space] + b) == WordLength(a)
  {
    var s := a + [space] + b;
    if a == "" {
      assert s[0] == space;
    } else if !IsSpace(a[0]) {
      assert s[1..] == a[1..] + [space] + b;
      WordLengthBefore(a[1..], space, b);
    }
  }

  /** A space separates words, wherever it stands. */
  lemma {:induction false} FieldsAroundSpace(a: string, space: char, b: string)
    requires IsSpace(space)
    ensures Fields(a + [space] + b) == Fields(a) + Fields(b)
    decreases |a|
  {
    hide IsSpace, WordLength;
    var s := a + [space] + b;
    if a == "" {
      assert s[0] == space && s[1..] == b;
    } else if IsSpace(a[0]) {
      assert s[1..] == a[1..] + [space] + b;
      FieldsAroundSpace(a[1..], space, b);
    } else {
      var n := WordLength(a);
      WordLengthBefore(a, space, b);
      assert s[..n] == a[..n];
      assert s[n..] == a[n..] + [space] + b;
      FieldsAroundSpace(a[n..], space, b);
    }
  }

  lemma FieldsAfterSpace(space: char, s: string)
    requires IsSpace(space)
    ensures Fields([space] + s) == Fields(s)
  {
    assert ([space] + s)[1..] == s;
  }

  lemma {:induction false} WordLengthOfWord(w: string)
    requires forall i :: 0 <= i < |w| ==> !IsSpace(w[i])
    ensures WordLength(w) == |w|
  {
    if w != "" {
      WordLengthOfWord(w[1..]);
    }
  }

  lemma FieldsOfWord(w: string)
    requires IsWord(w)
    ensures Fields(w) == [w]
  {
    WordLengthOfWord(w);
    assert w[..|w|] == w && w[|w|..] == "";
  }

  lemma FieldsOfNothing()
    ensures Fields("") == []
  {
  }

  /** The parts, with the separator between every two. */
  function Glue(parts: seq<string>, separator: string): string {
    if parts == [] then "" else if |parts| == 1 then parts[0] else parts[0] + separator + Glue(parts[1..], separator)
  }

  // ---------- preparing the text ----------

  predicate NoCRLF(s: string) {
    forall i :: 0 <= i < |s| - 1 ==> !(s[i] == '\r' && s[i + 1] == '\n')
  }

  /** The position of the first "\r\n", or the length. */
  function FirstCRLF(s: string): (i: nat)
    ensures i <= |s| && (i < |s| ==> i + 1 < |s| && s[i] == '\r' && s[i + 1] == '\n')
    ensures NoCRLF(s[..i])
  {
    if |s| < 2 then |s|
    else if s[0] == '\r' && s[1] == '\n' then 0
    else 1 + FirstCRLF(s[1..])
  }

  /** strings.ReplaceAll(text, "\r\n", "\n"). */
  function UnixLines(s: string): string
    decreases |s|
  {
    var i := FirstCRLF(s);
    if i == |s| then s else s[..i] + "\n" + UnixLines(s[i + 2..])
  }

  /** strings.TrimRight with a cutset. */
  function TrimRightOf(s: string, cutset: string): string {
    if s != "" && s[|s| - 1] in cutset then TrimRightOf(s[..|s| - 1], cutset) else s
  }

  function LineLength(s: string): (n: nat)
    ensures n <= |s| && (n < |s| ==> s[n] == '\n') && '\n' !in s[..n]
  {
    if s == "" || s[0] == '\n' then 0 else 1 + LineLength(s[1..])
  }

  /** strings.Split(text, "\n"). */
  function Lines(s: string): seq<string>
    decreases |s|
  {
    var n := LineLength(s);
    if n == |s| then [s] else [s[..n]] + Lines(s[n + 1..])
  }

  function Paragraphs(text: string): seq<string> {
    Lines(TrimRightOf(UnixLines(text), "\n"))
  }

  function WordsOf(lines: seq<string>): seq<string> {
    if lines == [] then [] else Fields(lines[0]) + WordsOf(lines[1..])
  }

  lemma {:induction false} WordsOfConcat(a: seq<string>, b: seq<string>)
    ensures WordsOf(a + b) == WordsOf(a) + WordsOf(b)
  {
    if a == [] {
      assert a + b == b;
    } else {
      assert (a + b)[1..] == a[1..] + b;
      WordsOfConcat(a[1..], b);
    }
  }

  lemma {:induction false} UnixLinesKeepWords(s: string)
    ensures Fields(UnixLines(s)) == Fields(s)
    decreases |s|
  {
    hide Fields;
    var i := FirstCRLF(s);
    if i < |s| {
      var rest := s[i + 2..];
      UnixLinesKeepWords(rest);
      assert s == s[..i] + ['\r'] + (['\n'] + rest);
      FieldsAroundSpace(s[..i], '\r', ['\n'] + rest);
      FieldsAfterSpace('\n', rest);
      assert UnixLines(s) == s[..i] + ['\n'] + UnixLines(rest);
      FieldsAroundSpace(s[..i], '\n', UnixLines(rest));
    }
  }

  lemma {:induction false} TrimKeepsWords(s: string, cutset: string)
    requires forall c :: c in cutset ==> IsSpace(c)
    ensures Fields(TrimRightOf(s, cutset)) == Fields(s)
  {
    hide Fields;
    if s != "" && s[|s| - 1] in cutset {
      var n := |s| - 1;
      TrimKeepsWords(s[..n], cutset);
      assert s == s[..n] + [s[n]] + "";
      FieldsAroundSpace(s[..n], s[n], "");
      FieldsOfNothing();
    }
  }

  lemma {:induction false} LinesKeepWords(s: string)
    ensures WordsOf(Lines(s)) == Fields(s)
    decreases |s|
  {
    assert IsSpace('\n');
    hide Fields, IsSpace, LineLength;
    var n := LineLength(s);
    if n < |s| {
      LinesKeepWords(s[n + 1..]);
      assert s == s[..n] + ['\n'] + s[n + 1..];
      FieldsAroundSpace(s[..n], '\n', s[n + 1..]);
      assert Lines(s)[1..] == Lines(s[n + 1..]);
    } else {
      assert Lines(s)[1..] == [];
    }
  }

  /** Replacing: the text is pieces without "\r\n", with "\r\n" between them, and becomes them with "\n" instead. */
  lemma {:induction false} UnixLinesExactly(s: string) returns (pieces: seq<string>)
    ensures pieces != [] && forall i :: 0 <= i < |pieces| ==> NoCRLF(pieces[i])
    ensures s == Glue(pieces, "\r\n") && UnixLines(s) == Glue(pieces, "\n")
    decreases |s|
  {
    hide NoCRLF, FirstCRLF;
    var i := FirstCRLF(s);
    if i == |s| {
      assert s[..i] == s;
      pieces := [s];
    } else {
      var rest := UnixLinesExactly(s[i + 2..]);
      pieces := [s[..i]] + rest;
      assert pieces[1..] == rest;
      assert s == s[..i] + "\r\n" + s[i + 2..];
    }
  }

  /** Trimming on the right takes off characters of the cutset, and all of them. */
  lemma {:induction false} TrimRightExactly(s: string, cutset: string) returns (tail: string)
    ensures s == TrimRightOf(s, cutset) + tail && forall i :: 0 <= i < |tail| ==> tail[i] in cutset
    ensures TrimRightOf(s, cutset) != "" ==> TrimRightOf(s, cutset)[|TrimRightOf(s, cutset)| - 1] !in cutset
  {
    tail := "";
    if s != "" && s[|s| - 1] in cutset {
      var rest := TrimRightExactly(s[..|s| - 1], cutset);
      tail := rest + [s[|s| - 1]];
      assert s == s[..|s| - 1] + [s[|s| - 1]];
    }
  }

  /** Splitting: lines without "\n" that give the text when "\n" is put between them. */
  lemma {:induction false} LinesExactly(s: string)
    ensures Lines(s) != [] && Glue(Lines(s), "\n") == s
    ensures forall i :: 0 <= i < |Lines(s)| ==> '\n' !in Lines(s)[i]
    decreases |s|
  {
    hide LineLength;
    var n := LineLength(s);
    if n < |s| {
      LinesExactly(s[n + 1..]);
      assert Lines(s)[1..] == Lines(s[n + 1..]);
      assert s == s[..n] + "\n" + s[n + 1..];
    } else {
      assert s[..n] == s;
    }
  }

  /** The text without trailing characters of the cutset is `front`. */
  predicate IsTrimmed(s: string, front: string, cutset: string) {
    && front <= s
    && (forall i :: |front| <= i < |s| ==> s[i] in cutset)
    && (front != "" ==> front[|front| - 1] !in cutset)
  }

  /**
   What the paragraphs of a text are: with "\n" between them they give the text, with every "\r\n" made a "\n"
   and without trailing newlines, and none of them contains a "\n".
   */
  ghost predicate AreParagraphs(text: string, paragraphs: seq<string>) {
    && paragraphs != [] && (forall i :: 0 <= i < |paragraphs| ==> '\n' !in paragraphs[i])
    && exists pieces: seq<string> ::
         && pieces != [] && (forall i :: 0 <= i < |pieces| ==> NoCRLF(pieces[i]))
         && text == Glue(pieces, "\r\n")
         && IsTrimmed(Glue(pieces, "\n"), Glue(paragraphs, "\n"), "\n")
  }

  lemma ParagraphsAreParagraphs(text: string)
    ensures AreParagraphs(text, Paragraphs(text))
  {
    hide Glue, Lines, UnixLines, TrimRightOf;
    var pieces := UnixLinesExactly(text);
    var tail := TrimRightExactly(UnixLines(text), "\n");
    LinesExactly(TrimRightOf(UnixLines(text), "\n"));
    assert IsTrimmed(Glue(pieces, "\n"), Glue(Paragraphs(text), "\n"), "\n");
  }

  // ---------- breaking a long paragraph ----------

  function Join(words: seq<string>): string {
    if words == [] then "" else if |words| == 1 then words[0] else words[0] + " " + Join(words[1..])
  }

  /** How many more words fit on a line that already has `length` characters. */
  function MoreThatFit(length: nat, words: seq<string>, width: int): (n: nat)
    ensures n <= |words|
    decreases |words|
  {
    if words == [] || length + 1 + |words[0]| > width then 0
    else 1 + MoreThatFit(length + 1 + |words[0]|, words[1..], width)
  }

  /** How many words the first line takes. */
  function FirstLine(words: seq<string>, width: int): (n: nat)
    requires words != []
    ensures 1 <= n <= |words|
  {
    1 + MoreThatFit(|words[0]|, words[1..], width)
  }

  /** The greedy layout, as groups of words. */
  function Greedy(words: seq<string>, width: int): seq<seq<string>> {
    if words == [] then []
    else [words[..FirstLine(words, width)]] + Greedy(words[FirstLine(words, width)..], width)
  }

  function Joined(groups: seq<seq<string>>): (lines: seq<string>)
    ensures |lines| == |groups| && forall i :: 0 <= i < |groups| ==> lines[i] == Join(groups[i])
  {
    if groups == [] then [] else [Join(groups[0])] + Joined(groups[1..])
  }

  function Flatten(groups: seq<seq<string>>): seq<string> {
    if groups == [] then [] else groups[0] + Flatten(groups[1..])
  }

  /** A line is at most `width` characters long, or a lone word. */
  predicate Fits(group: seq<string>, width: int) {
    |Join(group)| <= width || |group| == 1
  }

  predicate IsLayout(groups: seq<seq<string>>, words: seq<string>, width: int) {
    Flatten(groups) == words && forall i :: 0 <= i < |groups| ==> Fits(groups[i], width)
  }

  lemma {:induction false} JoinIsGlue(words: seq<string>)
    ensures Join(words) == Glue(words, " ")
  {
    if |words| > 1 {
      JoinIsGlue(words[1..]);
    }
  }

  lemma {:induction false} JoinAppend(a: seq<string>, b: seq<string>)
    requires a != [] && b != []
    ensures Join(a + b) == Join(a) + " " + Join(b)
  {
    if |a| == 1 {
      assert (a + b)[1..] == b;
    } else {
      assert (a + b)[1..] == a[1..] + b;
      JoinAppend(a[1..], b);
    }
  }

  lemma {:induction false} FitExactly(a: seq<string>, b: seq<string>, m: nat, width: int)
    requires a != [] && m <= |b|
    ensures var n := MoreThatFit(|Join(a)|, b, width);
            && (n > 0 ==> |Join(a + b[..n])| <= width)
            && (m > 0 && |Join(a + b[..m])| <= width ==> m <= n)
    decreases |b|
  {
    if b != [] {
      var a' := a + [b[0]];
      JoinAppend(a, [b[0]]);
      assert |Join(a')| == |Join(a)| + 1 + |b[0]|;
      var rest := b[1..];
      FitExactly(a', rest, if m > 0 then m - 1 else 0, width);
      var n := MoreThatFit(|Join(a)|, b, width);
      if n > 0 {
        assert a + b[..n] == a' + rest[..n - 1];
        if n == 1 {
          assert a' + rest[..0] == a';
        }
      }
      if m > 0 {
        assert a + b[..m] == a' + rest[..m - 1];
        if m == 1 {
          assert a' + rest[..0] == a';
        } else {
          JoinAppend(a', rest[..m - 1]);
        }
      }
    }
  }

  /** The first line fits, and no longer prefix would. */
  lemma FirstLineIsLongest(words: seq<string>, m: nat, width: int)
    requires words != [] && m <= |words|
    ensures Fits(words[..FirstLine(words, width)], width)
    ensures Fits(words[..m], width) ==> m <= FirstLine(words, width)
  {
    var a, b := words[..1], words[1..];
    assert Join(a) == words[0];
    FitExactly(a, b, if m > 0 then m - 1 else 0, width);
    var n := MoreThatFit(|words[0]|, b, width);
    assert words[..n + 1] == a + b[..n];
    if m > 0 {
      assert words[..m] == a + b[..m - 1];
    }
  }

  lemma NoGroupsForNoWords(width: int)
    ensures Greedy([], width) == [] && IsLayout([], [], width)
  {
  }

  lemma LayoutGrows(group: seq<string>, groups: seq<seq<string>>, words: seq<string>, width: int)
    requires Fits(group, width) && IsLayout(groups, words, width)
    ensures IsLayout([group] + groups, group + words, width)
  {
    hide Fits;
    assert ([group] + groups)[1..] == groups;
  }

  lemma {:induction false} GreedyIsLayout(words: seq<string>, width: int)
    ensures IsLayout(Greedy(words, width), words, width)
    ensures forall i :: 0 <= i < |Greedy(words, width)| ==> Greedy(words, width)[i] != []
    decreases |words|
  {
    hide FirstLine, Fits, IsLayout;
    if words == [] {
      NoGroupsForNoWords(width);
    } else {
      var k := FirstLine(words, width);
      FirstLineIsLongest(words, 0, width);
      GreedyIsLayout(words[k..], width);
      LayoutGrows(words[..k], Greedy(words[k..], width), words[k..], width);
      assert words == words[..k] + words[k..];
    }
  }

  lemma {:induction false} FitsShortens(a: seq<string>, b: seq<string>, width: int)
    requires Fits(a + b, width)
    ensures Fits(b, width) || width < 0
  {
    if a != [] && b != [] {
      JoinAppend(a, b);
    } else if a == [] {
      assert a + b == b;
    }
  }

  /** A line that starts later reaches at least as far. */
  lemma LaterLineReachesAsFar(words: seq<string>, i: nat, width: int)
    requires width >= 0 && i < |words| && i < FirstLine(words, width)
    ensures FirstLine(words, width) <= i + FirstLine(words[i..], width)
  {
    hide Fits;
    var k := FirstLine(words, width);
    FirstLineIsLongest(words, 0, width);
    assert words[..k] == words[..i] + words[i..k];
    FitsShortens(words[..i], words[i..k], width);
    assert words[i..][..k - i] == words[i..k];
    FirstLineIsLongest(words[i..], k - i, width);
  }

  /** Dropping words from the front never costs lines. */
  lemma {:induction false} FewerWordsFewerLines(words: seq<string>, i: nat, width: int)
    requires i <= |words| && width >= 0
    ensures |Greedy(words[i..], width)| <= |Greedy(words, width)|
    decreases |words|
  {
    hide FirstLine;
    if i == 0 {
      assert words[0..] == words;
    } else if i < |words| {
      var k := FirstLine(words, width);
      var rest := words[k..];
      var j := i + FirstLine(words[i..], width);
      if i >= k {
        assert words[i..] == rest[i - k..];
        FewerWordsFewerLines(rest, i - k, width);
      } else {
        LaterLineReachesAsFar(words, i, width);
        assert words[i..][j - i..] == rest[j - k..];
        FewerWordsFewerLines(rest, j - k, width);
      }
    }
  }

  /** No layout of the same words has fewer lines than the greedy one. */
  lemma {:induction false} GreedyIsFewest(words: seq<string>, layout: seq<seq<string>>, width: int)
    requires width >= 0 && IsLayout(layout, words, width)
    ensures |Greedy(words, width)| <= |layout|
    decreases |layout|
  {
    hide Fits, FirstLine;
    if layout != [] {
      var first := layout[0];
      var m := |first|;
      assert words == first + Flatten(layout[1..]);
      assert words[..m] == first && words[m..] == Flatten(layout[1..]);
      GreedyIsFewest(words[m..], layout[1..], width);
      if m > 0 {
        var k := FirstLine(words, width);
        FirstLineIsLongest(words, m, width);
        assert words[k..] == words[m..][k - m..];
        FewerWordsFewerLines(words[m..], k - m, width);
      }
    }
  }

  lemma {:induction false} JoinKeepsWords(words: seq<string>)
    requires AreWords(words)
    ensures Fields(Join(words)) == words
  {
    hide Fields, IsWord;
    if words == [] {
      FieldsOfNothing();
    } else if |words| == 1 {
      FieldsOfWord(words[0]);
    } else {
      FieldsOfWord(words[0]);
      JoinKeepsWords(words[1..]);
      FieldsAroundSpace(words[0], ' ', Join(words[1..]));
      assert words == [words[0]] + words[1..];
    }
  }

  lemma {:induction false} JoinedKeepWords(groups: seq<seq<string>>)
    requires AreWords(Flatten(groups))
    ensures WordsOf(Joined(groups)) == Flatten(groups)
  {
    if groups != [] {
      var first, rest := groups[0], Flatten(groups[1..]);
      assert forall i :: 0 <= i < |first| ==> first[i] == Flatten(groups)[i];
      assert forall i :: 0 <= i < |rest| ==> rest[i] == Flatten(groups)[|first| + i];
      JoinKeepsWords(first);
      JoinedKeepWords(groups[1..]);
      assert Joined(groups)[1..] == Joined(groups[1..]);
    }
  }

  // ---------- the whole text ----------

  /** The lines of one paragraph: itself if it is short enough, otherwise the greedy layout of its words. */
  function Wrapped(paragraph: string, width: int): seq<string> {
    var p := TrimRightOf(paragraph, " \t");
    if |p| <= width then [p] else Joined(Greedy(Fields(p), width))
  }

  function WrappedAll(paragraphs: seq<string>, width: int): seq<string> {
    if paragraphs == [] then [] else Wrapped(paragraphs[0], width) + WrappedAll(paragraphs[1..], width)
  }

  lemma {:induction false} WrappedAllAppend(paragraphs: seq<string>, last: string, width: int)
    ensures WrappedAll(paragraphs + [last], width) == WrappedAll(paragraphs, width) + Wrapped(last, width)
  {
    if paragraphs == [] {
      assert [last][1..] == [];
    } else {
      assert (paragraphs + [last])[1..] == paragraphs[1..] + [last];
      WrappedAllAppend(paragraphs[1..], last, width);
    }
  }

  predicate AllFit(lines: seq<string>, width: int) {
    forall i :: 0 <= i < |lines| ==> |lines[i]| <= width || IsWord(lines[i])
  }

  lemma {:induction false} GroupsAreWords(groups: seq<seq<string>>)
    requires AreWords(Flatten(groups))
    ensures forall i :: 0 <= i < |groups| ==> AreWords(groups[i])
  {
    if groups != [] {
      var first, rest := groups[0], Flatten(groups[1..]);
      assert forall i :: 0 <= i < |first| ==> first[i] == Flatten(groups)[i];
      assert forall i :: 0 <= i < |rest| ==> rest[i] == Flatten(groups)[|first| + i];
      GroupsAreWords(groups[1..]);
    }
  }

  /** A wrapped paragraph has the paragraph's words, and no line is too long unless it is one word. */
  lemma WrappedIsFaithful(paragraph: string, width: int)
    ensures WordsOf(Wrapped(paragraph, width)) == Fields(paragraph)
    ensures AllFit(Wrapped(paragraph, width), width)
  {
    var p := TrimRightOf(paragraph, " \t");
    TrimKeepsWords(paragraph, " \t");
    if |p| <= width {
      assert [p][1..] == [];
    } else {
      var words := Fields(p);
      var groups := Greedy(words, width);
      FieldsAreWords(p);
      GreedyIsLayout(words, width);
      JoinedKeepWords(groups);
      GroupsAreWords(groups);
    }
  }

  lemma {:induction false} WrappedAllIsFaithful(paragraphs: seq<string>, width: int)
    ensures WordsOf(WrappedAll(paragraphs, width)) == WordsOf(paragraphs)
    ensures AllFit(WrappedAll(paragraphs, width), width)
  {
    if paragraphs != [] {
      WrappedIsFaithful(paragraphs[0], width);
      WrappedAllIsFaithful(paragraphs[1..], width);
      WordsOfConcat(Wrapped(paragraphs[0], width), WrappedAll(paragraphs[1..], width));
    }
  }

  /** A long paragraph takes the fewest lines of any layout of its words. */
  lemma WrappedIsFewest(paragraph: string, layout: seq<seq<string>>, width: int)
    requires width > 0 && |TrimRightOf(paragraph, " \t")| > width
    requires IsLayout(layout, Fields(paragraph), width)
    ensures |Wrapped(paragraph, width)| <= |layout|
  {
    TrimKeepsWords(paragraph, " \t");
    GreedyIsFewest(Fields(paragraph), layout, width);
  }

  /** These lines are the groups, each with single blanks between its words. */
  ghost predicate Spelled(block: seq<string>, groups: seq<seq<string>>) {
    |block| == |groups| && forall i :: 0 <= i < |groups| ==> block[i] == Glue(groups[i], " ")
  }

  /** No line could take the first word of the next one. */
  ghost predicate LinesAreFull(groups: seq<seq<string>>, width: int) {
    && (forall i :: 0 <= i < |groups| ==> groups[i] != [])
    && (forall i :: 0 < i < |groups| ==> !Fits(groups[i - 1] + [groups[i][0]], width))
  }

  ghost predicate Wraps(paragraph: string, front: string, block: seq<string>, width: int) {
    if |front| <= width then block == [front]
    else
      exists groups ::
        IsLayout(groups, Fields(paragraph), width) && LinesAreFull(groups, width) && Spelled(block, groups)
  }

  /**
   What the lines of one paragraph are. A paragraph that is short enough without its trailing blanks and tabs
   stays one line. The words of a longer one are laid out, in their order, with single blanks, on lines that are
   short enough or a lone word and as full as they can be.
   */
  ghost predicate IsWrapping(paragraph: string, block: seq<string>, width: int) {
    exists front :: IsTrimmed(paragraph, front, " \t") && Wraps(paragraph, front, block, width)
  }

  lemma FullGrows(group: seq<string>, groups: seq<seq<string>>, width: int)
    requires group != [] && LinesAreFull(groups, width)
    requires groups != [] ==> !Fits(group + [groups[0][0]], width)
    ensures LinesAreFull([group] + groups, width)
  {
    hide Fits;
    var all := [group] + groups;
    forall i | 0 < i < |all|
      ensures !Fits(all[i - 1] + [all[i][0]], width)
    {
      assert all[i] == groups[i - 1];
      if i > 1 {
        assert all[i - 1] == groups[i - 2];
      }
    }
  }

  lemma {:induction false} GreedyIsFull(words: seq<string>, width: int)
    ensures LinesAreFull(Greedy(words, width), width)
    decreases |words|
  {
    hide Fits, FirstLine;
    if words != [] {
      var k := FirstLine(words, width);
      GreedyIsFull(words[k..], width);
      if k < |words| {
        FirstLineIsLongest(words, k + 1, width);
        assert words[..k + 1] == words[..k] + [words[k]];
        assert Greedy(words[k..], width)[0][0] == words[k];
      }
      FullGrows(words[..k], Greedy(words[k..], width), width);
    }
  }

  lemma WrappedIsWrapping(paragraph: string, width: int)
    ensures IsWrapping(paragraph, Wrapped(paragraph, width), width)
  {
    hide Fields, TrimRightOf, Greedy, Joined, IsLayout, LinesAreFull, Fits;
    var front := TrimRightOf(paragraph, " \t");
    var tail := TrimRightExactly(paragraph, " \t");
    assert IsTrimmed(paragraph, front, " \t");
    if |front| > width {
      TrimKeepsWords(paragraph, " \t");
      var words := Fields(paragraph);
      var groups := Greedy(words, width);
      GreedyIsLayout(words, width);
      GreedyIsFull(words, width);
      forall i | 0 <= i < |groups|
        ensures Joined(groups)[i] == Glue(groups[i], " ")
      {
        JoinIsGlue(groups[i]);
      }
      assert Spelled(Joined(groups), groups);
    }
    assert Wraps(paragraph, front, Wrapped(paragraph, width), width);
  }

  lemma FullTail(groups: seq<seq<string>>, width: int)
    requires groups != [] && LinesAreFull(groups, width)
    ensures LinesAreFull(groups[1..], width)
  {
    hide Fits;
    var rest := groups[1..];
    forall i | 0 < i < |rest|
      ensures !Fits(rest[i - 1] + [rest[i][0]], width)
    {
      assert rest[i] == groups[i + 1] && rest[i - 1] == groups[i];
    }
  }

  lemma PrefixFits(words: seq<string>, m: nat, width: int)
    requires 1 < m <= |words| && Fits(words, width)
    ensures Fits(words[..m], width)
  {
    if m < |words| {
      assert words == words[..m] + words[m..];
      JoinAppend(words[..m], words[m..]);
    } else {
      assert words[..m] == words;
    }
  }

  /** When one word more does not fit, no longer prefix does. */
  lemma NoLongerLine(words: seq<string>, m: nat, width: int)
    requires 0 < m < |words| && !Fits(words[..m + 1], width)
    ensures FirstLine(words, width) <= m
  {
    var k := FirstLine(words, width);
    FirstLineIsLongest(words, 0, width);
    if k > m {
      assert words[..k][..m + 1] == words[..m + 1];
      PrefixFits(words[..k], m + 1, width);
    }
  }

  /** Full lines are the greedy layout: there is no other wrapping, and none has fewer lines. */
  lemma {:induction false} FullIsGreedy(groups: seq<seq<string>>, words: seq<string>, width: int)
    requires IsLayout(groups, words, width) && LinesAreFull(groups, width)
    ensures groups == Greedy(words, width)
    decreases |groups|
  {
    hide Fits, FirstLine;
    if groups != [] {
      var first, rest := groups[0], groups[1..];
      var m := |first|;
      assert words == first + Flatten(rest);
      assert words[..m] == first && words[m..] == Flatten(rest);
      FirstLineIsLongest(words, m, width);
      FullTail(groups, width);
      FullIsGreedy(rest, words[m..], width);
      if rest != [] {
        assert words[m] == rest[0][0];
        assert words[..m + 1] == first + [rest[0][0]];
        NoLongerLine(words, m, width);
      }
    }
  }

  lemma TrimmedIsUnique(s: string, front: string, other: string, cutset: string)
    requires IsTrimmed(s, front, cutset) && IsTrimmed(s, other, cutset)
    ensures front == other
  {
    assert front != "" ==> s[|front| - 1] !in cutset;
    assert other != "" ==> s[|other| - 1] !in cutset;
    assert front == s[..|front|] && other == s[..|other|];
  }

  lemma TrimmedByCutset(paragraph: string)
    ensures IsTrimmed(paragraph, TrimRightOf(paragraph, " \t"), " \t")
  {
    hide TrimRightOf;
    var tail := TrimRightExactly(paragraph, " \t");
  }

  /** A paragraph has exactly one wrapping. */
  lemma WrappingIsUnique(paragraph: string, block: seq<string>, width: int)
    ensures IsWrapping(paragraph, block, width) <==> block == Wrapped(paragraph, width)
  {
    hide Fields, TrimRightOf, Greedy, Joined, IsLayout, LinesAreFull, IsTrimmed;
    WrappedIsWrapping(paragraph, width);
    if IsWrapping(paragraph, block, width) {
      var front :| IsTrimmed(paragraph, front, " \t") && Wraps(paragraph, front, block, width);
      TrimmedByCutset(paragraph);
      TrimmedIsUnique(paragraph, front, TrimRightOf(paragraph, " \t"), " \t");
      if |front| > width {
        TrimKeepsWords(paragraph, " \t");
        var groups :|
          IsLayout(groups, Fields(paragraph), width) && LinesAreFull(groups, width) && Spelled(block, groups);
        FullIsGreedy(groups, Fields(paragraph), width);
        forall i | 0 <= i < |groups|
          ensures block[i] == Joined(groups)[i]
        {
          JoinIsGlue(groups[i]);
        }
      }
    }
  }

  /** The wrapping of a long paragraph has the fewest lines that any layout of its words has. */
  lemma WrappingIsFewest(paragraph: string, block: seq<string>, layout: seq<seq<string>>, width: int)
    requires width > 0 && IsWrapping(paragraph, block, width) && IsLayout(layout, Fields(paragraph), width)
    ensures |block| <= |layout| || (|block| == 1 && |block[0]| <= width)
  {
    hide Fields, IsLayout, Greedy, Joined;
    WrappingIsUnique(paragraph, block, width);
    if |TrimRightOf(paragraph, " \t")| > width {
      WrappedIsFewest(paragraph, layout, width);
    }
  }

  // ---------- which line breaks are kept ----------

  lemma {:induction false} NoWordsInBlank(s: string)
    ensures Fields(s) == [] <==> Blank(s)
    decreases |s|
  {
    hide IsSpace, WordLength;
    if s != "" && IsSpace(s[0]) {
      NoWordsInBlank(s[1..]);
      assert Blank(s) <==> Blank(s[1..]) by {
        assert forall i :: 0 < i < |s| ==> s[i] == s[1..][i - 1];
      }
    }
  }

  /** White space only, and still too long once trailing blanks and tabs are gone. */
  predicate LosesLine(paragraph: string, width: int) {
    Blank(paragraph) && |TrimRightOf(paragraph, " \t")| > width
  }

  lemma GreedyOfNothing(width: int)
    ensures Joined(Greedy([], width)) == []
  {
  }

  /** A paragraph is left without a line exactly then. */
  lemma LineIsLostExactly(paragraph: string, width: int)
    ensures Wrapped(paragraph, width) == [] <==> LosesLine(paragraph, width)
  {
    hide Fields, TrimRightOf, Blank;
    var p := TrimRightOf(paragraph, " \t");
    TrimKeepsWords(paragraph, " \t");
    NoWordsInBlank(paragraph);
    GreedyOfNothing(width);
  }

  /** The input that shows it: enough white space before a character that is not trimmed, such as U+00A0. */
  lemma TrailingNoBreakSpaceIsLost(blanks: string, width: int)
    requires Blank(blanks) && |blanks| >= width
    ensures Wrapped(blanks + ['\U{A0}'], width) == []
  {
    var paragraph := blanks + ['\U{A0}'];
    assert TrimRightOf(paragraph, " \t") == paragraph;
    LineIsLostExactly(paragraph, width);
  }

  // ---------- the loops ----------

  /** The same, with the number of words that still go on the line. */
  function ContinueAt(n: nat, line: seq<string>, words: seq<string>, width: int): seq<seq<string>>
    requires n <= |words|
  {
    [line + words[..n]] + Greedy(words[n..], width)
  }

  /** The greedy layout, continued from a line that already holds some words. */
  function Continue(line: seq<string>, words: seq<string>, width: int): seq<seq<string>> {
    ContinueAt(MoreThatFit(|Join(line)|, words, width), line, words, width)
  }

  lemma ContinueStart(words: seq<string>, width: int)
    requires words != []
    ensures Greedy(words, width) == Continue([words[0]], words[1..], width)
  {
    var n := MoreThatFit(|words[0]|, words[1..], width);
    assert words[..n + 1] == [words[0]] + words[1..][..n];
    assert words[n + 1..] == words[1..][n..];
  }

  lemma OneMoreFits(length: nat, words: seq<string>, width: int)
    requires words != [] && length + 1 + |words[0]| <= width
    ensures MoreThatFit(length, words, width) == MoreThatFit(length + 1 + |words[0]|, words[1..], width) + 1
  {
  }

  lemma MoveOneWord(n: nat, line: seq<string>, words: seq<string>, width: int)
    requires n < |words|
    ensures ContinueAt(n + 1, line, words, width) == ContinueAt(n, line + [words[0]], words[1..], width)
  {
    hide Greedy;
    assert words[..n + 1] == [words[0]] + words[1..][..n];
    assert line + words[..n + 1] == line + [words[0]] + words[1..][..n];
    assert words[n + 1..] == words[1..][n..];
  }

  lemma JoinOne(word: string)
    ensures Join([word]) == word
  {
  }

  lemma ContinueSameLine(line: seq<string>, words: seq<string>, width: int)
    requires line != [] && words != [] && |Join(line)| + 1 + |words[0]| <= width
    ensures Join(line + [words[0]]) == Join(line) + " " + words[0]
    ensures Continue(line, words, width) == Continue(line + [words[0]], words[1..], width)
  {
    hide ContinueAt, Join, MoreThatFit;
    JoinAppend(line, [words[0]]);
    JoinOne(words[0]);
    OneMoreFits(|Join(line)|, words, width);
    MoveOneWord(MoreThatFit(|Join(line)| + 1 + |words[0]|, words[1..], width), line, words, width);
  }

  lemma ContinueNewLine(line: seq<string>, words: seq<string>, width: int)
    requires line != [] && words != [] && |Join(line)| + 1 + |words[0]| > width
    ensures Continue(line, words, width) == [line] + Continue([words[0]], words[1..], width)
  {
    assert line + words[..0] == line && words[0..] == words;
    ContinueStart(words, width);
  }

  lemma {:induction false} JoinedAppend(a: seq<seq<string>>, b: seq<seq<string>>)
    ensures Joined(a + b) == Joined(a) + Joined(b)
  {
    if a == [] {
      assert a + b == b;
    } else {
      assert (a + b)[1..] == a[1..] + b;
      JoinedAppend(a[1..], b);
    }
  }

  lemma ContinueEnd(line: seq<string>, width: int)
    ensures Joined(Continue(line, [], width)) == [Join(line)]
  {
    assert line + [][..0] == line;
  }

  /** The inner loop: words go on the current line while they fit. */
  method BreakParagraph(paragraph: string, width: int) returns (out: seq<string>)
    ensures out == Joined(Greedy(Fields(paragraph), width))
  {
    hide Continue, Greedy, Join;
    var words := Fields(paragraph);
    FieldsAreWords(paragraph);
    var line := "";
    out := [];
    ghost var held: seq<string> := [];
    for i := 0 to |words|
      invariant held == [] <==> i == 0
      invariant i == 0 ==> out == [] && line == ""
      invariant i > 0 ==> line == Join(held) && line != ""
      invariant i > 0 ==> Joined(Greedy(words, width)) == out + Joined(Continue(held, words[i..], width))
    {
      var word := words[i];
      assert words[i..][0] == word && words[i..][1..] == words[i + 1..];
      assert IsWord(word);
      JoinOne(word);
      if line == "" {
        assert words[i..] == words;
        ContinueStart(words, width);
        line, held := word, [word];
      } else {
        if |line| + 1 + |word| > width {
          ContinueNewLine(held, words[i..], width);
          JoinedAppend([held], Continue([word], words[i + 1..], width));
          assert Joined([held]) == [line];
          out := out + [line];
          line, held := word, [word];
        } else {
          ContinueSameLine(held, words[i..], width);
          line, held := line + " " + word, held + [word];
        }
      }
    }
    if line != "" {
      ContinueEnd(held, width);
      assert words[|words|..] == [];
      out := out + [line];
    } else {
      GreedyOfNothing(width);
      assert words == [];
    }
  }

  lemma BlocksAreLost(paragraphs: seq<string>, width: int)
    ensures forall i :: 0 <= i < |paragraphs| ==>
              (Wrapped(paragraphs[i], width) == [] <==> LosesLine(paragraphs[i], width))
  {
    hide Wrapped, LosesLine;
    forall i | 0 <= i < |paragraphs|
      ensures Wrapped(paragraphs[i], width) == [] <==> LosesLine(paragraphs[i], width)
    {
      LineIsLostExactly(paragraphs[i], width);
    }
  }

  /** How many paragraphs keep a line. */
  function KeptCount(paragraphs: seq<string>, width: int): nat {
    if paragraphs == [] then 0
    else (if LosesLine(paragraphs[0], width) then 0 else 1) + KeptCount(paragraphs[1..], width)
  }

  /** The lines of each paragraph. */
  function Blocks(paragraphs: seq<string>, width: int): (blocks: seq<seq<string>>)
    ensures |blocks| == |paragraphs|
    ensures forall i :: 0 <= i < |paragraphs| ==> blocks[i] == Wrapped(paragraphs[i], width)
  {
    seq(|paragraphs|, i requires 0 <= i < |paragraphs| => Wrapped(paragraphs[i], width))
  }

  lemma {:induction false} KeptLines(paragraphs: seq<string>, width: int)
    ensures |Flatten(Blocks(paragraphs, width))| >= KeptCount(paragraphs, width)
    ensures (forall i :: 0 <= i < |paragraphs| ==> !LosesLine(paragraphs[i], width)) ==>
              KeptCount(paragraphs, width) == |paragraphs|
  {
    hide Wrapped, LosesLine;
    if paragraphs != [] {
      KeptLines(paragraphs[1..], width);
      LineIsLostExactly(paragraphs[0], width);
      assert Blocks(paragraphs, width)[1..] == Blocks(paragraphs[1..], width);
    }
  }

  function WidthOf(width: int): int {
    if width <= 0 then DEFAULT_WIDTH else width
  }

  /** There is a line for every paragraph that keeps one; if none loses its line, no line break of the text is lost. */
  lemma LineBreaksAreKept(text: string, width: int)
    ensures var paragraphs, w := Paragraphs(text), WidthOf(width);
            && |Flatten(Blocks(paragraphs, w))| >= KeptCount(paragraphs, w)
            && ((forall i :: 0 <= i < |paragraphs| ==> !LosesLine(paragraphs[i], w)) ==>
                  |Flatten(Blocks(paragraphs, w))| >= |paragraphs|)
  {
    KeptLines(Paragraphs(text), WidthOf(width));
  }

  lemma TextKeepsWords(text: string)
    ensures WordsOf(Paragraphs(text)) == Fields(text)
  {
    UnixLinesKeepWords(text);
    TrimKeepsWords(UnixLines(text), "\n");
    LinesKeepWords(TrimRightOf(UnixLines(text), "\n"));
  }

  lemma OneEmptyLine(width: int)
    ensures WordsOf([]) == WordsOf([""]) && AllFit([""], WidthOf(width))
  {
    FieldsOfNothing();
    assert [""][1..] == [];
  }

  ghost predicate AreWrappings(paragraphs: seq<string>, blocks: seq<seq<string>>, width: int) {
    |blocks| == |paragraphs| && forall i :: 0 <= i < |blocks| ==> IsWrapping(paragraphs[i], blocks[i], width)
  }

  /** What the output is, paragraph by paragraph; nothing at all becomes one empty line. */
  ghost predicate IsWrappedText(text: string, out: seq<string>, width: int) {
    exists paragraphs, blocks ::
      && AreParagraphs(text, paragraphs) && AreWrappings(paragraphs, blocks, width)
      && out == if Flatten(blocks) == [] then [""] else Flatten(blocks)
  }

  lemma BlocksAreWrappings(text: string, width: int)
    ensures var blocks := Blocks(Paragraphs(text), width);
            IsWrappedText(text, if Flatten(blocks) == [] then [""] else Flatten(blocks), width)
  {
    hide IsWrapping, AreParagraphs, Paragraphs, Wrapped;
    var paragraphs := Paragraphs(text);
    var blocks := Blocks(paragraphs, width);
    ParagraphsAreParagraphs(text);
    forall i | 0 <= i < |blocks|
      ensures IsWrapping(paragraphs[i], blocks[i], width)
    {
      WrappedIsWrapping(paragraphs[i], width);
    }
    assert AreWrappings(paragraphs, blocks, width);
  }

  lemma {:induction false} FlattenBlocks(paragraphs: seq<string>, width: int)
    ensures Flatten(Blocks(paragraphs, width)) == WrappedAll(paragraphs, width)
  {
    hide Wrapped;
    if paragraphs != [] {
      FlattenBlocks(paragraphs[1..], width);
      assert Blocks(paragraphs, width)[1..] == Blocks(paragraphs[1..], width);
    }
  }

  /** The outer loop: short paragraphs as they are, long ones broken. */
  method WrapParagraphs(paragraphs: seq<string>, width: int) returns (out: seq<string>)
    ensures out == WrappedAll(paragraphs, width)
  {
    hide Fields, TrimRightOf, Greedy, Joined;
    out := [];
    for i := 0 to |paragraphs|
      invariant out == WrappedAll(paragraphs[..i], width)
    {
      var paragraph := TrimRightOf(paragraphs[i], " \t");
      var lines;
      if |paragraph| <= width {
        lines := [paragraph];
      } else {
        lines := BreakParagraph(paragraph, width);
      }
      out := out + lines;
      WrappedAllAppend(paragraphs[..i], paragraphs[i], width);
      assert paragraphs[..i] + [paragraphs[i]] == paragraphs[..i + 1];
    }
    assert paragraphs[..|paragraphs|] == paragraphs;
  }

  /**
   wrapText. The words of the output are the words of the text, in order, and a line longer than the width is
   a single word. Every paragraph has its own block of lines, which is empty exactly if it loses its line; so
   line breaks of the text are kept but for such paragraphs.
   */
  method WrapText(text: string, width: int) returns (out: seq<string>)
    ensures WordsOf(out) == Fields(text)
    ensures AllFit(out, WidthOf(width))
    ensures var blocks := Blocks(Paragraphs(text), WidthOf(width));
            && out == (if Flatten(blocks) == [] then [""] else Flatten(blocks))
            && forall i :: 0 <= i < |blocks| ==> (blocks[i] == [] <==> LosesLine(Paragraphs(text)[i], WidthOf(width)))
    ensures IsWrappedText(text, out, if width <= 0 then 80 else width)
  {
    assert WidthOf(width) == if width <= 0 then 80 else width;
    hide Fields, Paragraphs, Wrapped, WrappedAll, IsWord, LosesLine, Flatten, WidthOf, IsWrappedText;
    var paragraphs := Paragraphs(text);
    out := WrapParagraphs(paragraphs, WidthOf(width));
    FlattenBlocks(paragraphs, WidthOf(width));
    TextKeepsWords(text);
    WrappedAllIsFaithful(paragraphs, WidthOf(width));
    BlocksAreLost(paragraphs, WidthOf(width));
    BlocksAreWrappings(text, WidthOf(width));
    if |out| == 0 {
      OneEmptyLine(width);
      out := [""];
    }
  }
}
