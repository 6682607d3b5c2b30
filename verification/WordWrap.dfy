/** Greedy wrapping of the console notifier, and why no wrapping is shorter. */
module WordWrap {
  import opened Basics
  import opened Text

  /** Words joined by single spaces. */
  function JoinWords(words: seq<string>): string {
    if words == [] then "" else
    if |words| == 1 then words[0] else JoinWords(words[..|words| - 1]) + " " + words[|words| - 1]
  }

  /** The bytes that words take up on one line, with one-byte gaps. */
  ghost function Width(words: seq<string>): nat {
    if words == [] then 0 else
    if |words| == 1 then ByteLen(words[0]) else Width(words[..|words| - 1]) + 1 + ByteLen(words[|words| - 1])
  }

  ghost function Flatten(groups: seq<seq<string>>): seq<string> {
    if groups == [] then [] else groups[0] + Flatten(groups[1..])
  }

  /** The words of each line. */
  ghost function Split(lines: seq<string>): (groups: seq<seq<string>>)
    ensures |groups| == |lines|
  {
    seq(|lines|, i requires 0 <= i < |lines| => Words(lines[i]))
  }

  /** The rule that a wrapping obeys: a line fits, or cannot be broken. */
  ghost predicate Fits(line: string, maxWidth: nat) {
    ByteLen(line) <= maxWidth || |Words(line)| <= 1
  }

  ghost predicate Wraps(lines: seq<string>, words: seq<string>, maxWidth: nat) {
    Flatten(Split(lines)) == words && forall i :: 0 <= i < |lines| ==> Fits(lines[i], maxWidth)
  }

  // ---- Lines and their words ----------------------------------------------------------------

  lemma {:induction false} WordsOfJoin(words: seq<string>)
    requires forall i :: 0 <= i < |words| ==> IsWord(words[i])
    ensures Words(JoinWords(words)) == words && ByteLen(JoinWords(words)) == Width(words)
  {
    if |words| == 1 {
      WordsOfWord(words[0]);
    } else if words != [] {
      var front, last := words[..|words| - 1], words[|words| - 1];
      WordsOfJoin(front);
      WordsAppend(JoinWords(front), last);
      ByteLenConcat(JoinWords(front) + " ", last);
      ByteLenConcat(JoinWords(front), " ");
      assert words == front + [last];
    }
  }

  lemma {:induction false} WidthCons(w: string, words: seq<string>)
    requires words != []
    ensures Width([w] + words) == ByteLen(w) + 1 + Width(words)
  {
    if |words| == 1 {
      assert ([w] + words)[..1] == [w];
    } else {
      assert ([w] + words)[..|words|] == [w] + words[..|words| - 1];
      WidthCons(w, words[..|words| - 1]);
    }
  }

  /** However its words are spaced, a line is at least as long as its words joined. */
  lemma {:induction false} WidthIsLeast(line: string)
    ensures Width(Words(line)) <= ByteLen(line)
    decreases |line|
  {
    if line != [] {
      if IsWhitespace(line[0]) {
        WidthIsLeast(line[1..]);
      } else {
        var k := WordEnd(line);
        var word, rest := line[..k], line[k..];
        assert line == word + rest;
        ByteLenConcat(word, rest);
        if Words(rest) != [] {
          WidthIsLeast(rest[1..]);
          WidthCons(word, Words(rest));
        }
      }
    }
  }

  lemma {:induction false} WidthOfPrefix(words: seq<string>, j: nat)
    requires j <= |words|
    ensures Width(words[..j]) <= Width(words)
  {
    if j < |words| {
      assert words[..|words| - 1][..j] == words[..j];
      WidthOfPrefix(words[..|words| - 1], j);
    } else {
      assert words[..j] == words;
    }
  }

  lemma {:induction false} WidthOfSuffix(words: seq<string>, i: nat)
    requires i <= |words|
    ensures Width(words[i..]) <= Width(words)
  {
    if i == 0 {
      assert words[i..] == words;
    } else {
      var rest := words[1..];
      assert words == [words[0]] + rest;
      assert rest[i - 1..] == words[i..];
      WidthOfSuffix(rest, i - 1);
      if rest != [] {
        WidthCons(words[0], rest);
      }
    }
  }

  lemma WidthOfPart(words: seq<string>, i: nat, j: nat)
    requires i <= j <= |words|
    ensures Width(words[i..j]) <= Width(words)
  {
    WidthOfPrefix(words, j);
    WidthOfSuffix(words[..j], i);
    assert words[..j][i..] == words[i..j];
  }

  lemma {:induction false} FlattenConcat(a: seq<seq<string>>, b: seq<seq<string>>)
    ensures Flatten(a + b) == Flatten(a) + Flatten(b)
  {
    if a == [] {
      assert a + b == b;
    } else {
      assert (a + b)[1..] == a[1..] + b;
      FlattenConcat(a[1..], b);
    }
  }

  // ---- Optimality ---------------------------------------------------------------------------

  /** A line is closed only when the next word does not fit on it. */
  ghost predicate Greedy(groups: seq<seq<string>>, maxWidth: nat) {
    && (forall i :: 0 <= i < |groups| ==> groups[i] != [])
    && (forall i, j :: 0 <= i && j == i + 1 < |groups| ==> Width(groups[i] + [groups[j][0]]) > maxWidth)
  }

  ghost predicate FitGroups(groups: seq<seq<string>>, maxWidth: nat) {
    forall i :: 0 <= i < |groups| ==> Width(groups[i]) <= maxWidth || |groups[i]| <= 1
  }

  /** Stay-ahead: a greedy grouping of the words from k on needs no more lines than any grouping of all. */
  lemma {:induction false} StayAhead(greedy: seq<seq<string>>, other: seq<seq<string>>, k: nat, maxWidth: nat)
    requires Greedy(greedy, maxWidth) && FitGroups(other, maxWidth)
    requires k <= |Flatten(other)| && Flatten(greedy) == Flatten(other)[k..]
    ensures |greedy| <= |other|
    decreases |other|
  {
    if greedy != [] {
      assert Flatten(greedy) == greedy[0] + Flatten(greedy[1..]);
      if |greedy| > 1 {
        var g, o := greedy[0], other[0];
        var all, rest := Flatten(other), Flatten(other[1..]);
        assert all == o + rest;
        var next := greedy[1][0];
        assert Flatten(greedy[1..]) == greedy[1] + Flatten(greedy[1..][1..]);
        assert all[k..][..|g|] == g && all[k..][|g|] == next;
        if k + |g| < |o| {
          assert o[k..k + |g| + 1] == g + [next];
          WidthOfPart(o, k, k + |g| + 1);
        }
        assert Greedy(greedy[1..], maxWidth) by {
          assert forall i :: 0 <= i < |greedy| - 1 ==> greedy[1..][i] == greedy[i + 1];
        }
        assert Flatten(greedy[1..]) == all[k..][|g|..] == rest[k + |g| - |o|..];
        StayAhead(greedy[1..], other[1..], k + |g| - |o|, maxWidth);
      }
    }
  }

  // ---- word_wrap ------------------------------------------------------------------------------

  /** Single spaces only, none at the ends. */
  ghost predicate Normal(line: string) {
    line == JoinWords(Words(line))
  }

  /** The loop's state: closed lines, the open line, and the words that both hold. */
  ghost predicate Progress(lines: seq<string>, currentLine: string, seen: seq<string>, maxWidth: nat) {
    && (forall i :: 0 <= i < |lines| ==> Normal(lines[i]) && Fits(lines[i], maxWidth))
    && Normal(currentLine) && Fits(currentLine, maxWidth)
    && Flatten(Split(lines)) + Words(currentLine) == seen
    && if currentLine == "" then lines == [] else Greedy(Split(lines) + [Words(currentLine)], maxWidth)
  }

  lemma NormalWidth(line: string)
    requires Normal(line)
    ensures ByteLen(line) == Width(Words(line)) && (Words(line) == [] ==> line == "")
  {
    WordsOfJoin(Words(line));
  }

  lemma OpenFirst(word: string, maxWidth: nat)
    requires IsWord(word)
    ensures Progress([], word, [word], maxWidth)
  {
    WordsOfWord(word);
    assert Split([]) == [] && [] + [[word]] == [[word]];
  }

  lemma GrowLine(lines: seq<string>, line: string, seen: seq<string>, word: string, maxWidth: nat)
    requires Progress(lines, line, seen, maxWidth) && line != "" && IsWord(word)
    requires ByteLen(line) + 1 + ByteLen(word) <= maxWidth
    ensures Progress(lines, line + " " + word, seen + [word], maxWidth)
  {
    WordsAppend(line, word);
    NormalWidth(line);
    LongerLine(line, word);
    GrowLast(Split(lines), Words(line), Words(line) + [word], maxWidth);
    assert Flatten(Split(lines)) + (Words(line) + [word]) == seen + [word];
  }

  lemma LongerLine(line: string, word: string)
    requires Normal(line) && Words(line) != [] && IsWord(word)
    ensures Normal(line + " " + word) && ByteLen(line + " " + word) == ByteLen(line) + 1 + ByteLen(word)
  {
    var was := Words(line);
    WordsAppend(line, word);
    assert (was + [word])[..|was|] == was;
    ByteLenConcat(line + " ", word);
    ByteLenConcat(line, " ");
  }

  lemma GrowLast(closed: seq<seq<string>>, was: seq<string>, now: seq<string>, maxWidth: nat)
    requires Greedy(closed + [was], maxWidth) && was != [] && was <= now
    ensures Greedy(closed + [now], maxWidth)
  {
    var g, h := closed + [was], closed + [now];
    assert forall i :: 0 <= i < |closed| ==> h[i] == g[i];
    assert h[|closed|] == now && g[|closed|] == was;
    forall i, j | 0 <= i && j == i + 1 < |h| ensures Width(h[i] + [h[j][0]]) > maxWidth {
      assert g[j] != [] && g[j][0] == h[j][0];
      assert Width(g[i] + [g[j][0]]) > maxWidth;
    }
  }

  lemma CloseLine(lines: seq<string>, line: string, seen: seq<string>, word: string, maxWidth: nat)
    requires Progress(lines, line, seen, maxWidth) && line != "" && IsWord(word)
    requires ByteLen(line) + 1 + ByteLen(word) > maxWidth
    ensures Progress(lines + [line], word, seen + [word], maxWidth)
  {
    NormalWidth(line);
    WordsOfWord(word);
    FlattenLast(lines, line);
    assert (Words(line) + [word])[..|Words(line)|] == Words(line);
    CloseLast(Split(lines), Words(line), word, maxWidth);
  }

  lemma CloseLast(closed: seq<seq<string>>, last: seq<string>, word: string, maxWidth: nat)
    requires Greedy(closed + [last], maxWidth) && Width(last + [word]) > maxWidth
    ensures Greedy(closed + [last] + [[word]], maxWidth)
  {
    var g, h := closed + [last], closed + [last] + [[word]];
    assert forall i :: 0 <= i < |g| ==> h[i] == g[i];
    assert h[|g|] == [word] && g[|g| - 1] == last;
    forall i, j | 0 <= i && j == i + 1 < |h| ensures Width(h[i] + [h[j][0]]) > maxWidth {
      if j < |g| {
        assert Width(g[i] + [g[j][0]]) > maxWidth;
      }
    }
  }

  lemma FlattenLast(lines: seq<string>, line: string)
    ensures Split(lines + [line]) == Split(lines) + [Words(line)]
    ensures Flatten(Split(lines + [line])) == Flatten(Split(lines)) + Words(line)
  {
    assert Split(lines + [line]) == Split(lines) + [Words(line)];
    FlattenConcat(Split(lines), [Words(line)]);
    assert Flatten([Words(line)]) == Words(line) + Flatten([]);
  }

  /** No wrapping of the same words that obeys the rule has fewer lines than a greedy one. */
  lemma GreedyIsOptimal(lines: seq<string>, other: seq<string>, words: seq<string>, maxWidth: nat)
    requires words != [] && Wraps(lines, words, maxWidth) && Greedy(Split(lines), maxWidth)
    requires Wraps(other, words, maxWidth)
    ensures |lines| <= |other|
  {
    forall i | 0 <= i < |other| ensures Width(Split(other)[i]) <= maxWidth || |Split(other)[i]| <= 1 {
      assert Fits(other[i], maxWidth);
      WidthIsLeast(other[i]);
    }
    StayAhead(Split(lines), Split(other), 0, maxWidth);
  }

  /** No wrapping of the words has fewer lines. */
  ghost predicate Shortest(lines: seq<string>, words: seq<string>, maxWidth: nat) {
    forall other :: Wraps(other, words, maxWidth) ==> |lines| <= |other|
  }

  /** What the method promises: the greedy wrapping of the words, in normal form, and a shortest one. */
  ghost predicate BestWrapping(lines: seq<string>, words: seq<string>, maxWidth: nat) {
    && Wraps(lines, words, maxWidth)
    && (forall i :: 0 <= i < |lines| ==> Normal(lines[i]))
    && Greedy(Split(lines), maxWidth)
    && Shortest(lines, words, maxWidth)
  }

  lemma CloseAll(lines: seq<string>, line: string, words: seq<string>, maxWidth: nat)
    requires Progress(lines, line, words, maxWidth) && line != ""
    ensures BestWrapping(lines + [line], words, maxWidth)
  {
    FlattenLast(lines, line);
    NormalWidth(line);
    var all := lines + [line];
    assert Wraps(all, words, maxWidth);
    forall other | Wraps(other, words, maxWidth) ensures |all| <= |other| {
      GreedyIsOptimal(all, other, words, maxWidth);
    }
  }

  method WordWrap(text: string, maxWidth: nat) returns (lines: seq<string>)
    ensures if Words(text) == [] then lines == [""] else BestWrapping(lines, Words(text), maxWidth)
  {
    lines := [];
    var currentLine := "";
    var words := Words(text);
    for i := 0 to |words|
      invariant Progress(lines, currentLine, words[..i], maxWidth)
      invariant currentLine == "" ==> i == 0
    {
      var word := words[i];
      assert words[..i + 1] == words[..i] + [word];
      if currentLine == "" {
        OpenFirst(word, maxWidth);
        currentLine := word;
      } else if ByteLen(currentLine) + 1 + ByteLen(word) <= maxWidth {
        GrowLine(lines, currentLine, words[..i], word, maxWidth);
        currentLine := currentLine + " " + word;
      } else {
        CloseLine(lines, currentLine, words[..i], word, maxWidth);
        lines := lines + [currentLine];
        currentLine := word;
      }
    }
    assert words[..|words|] == words;
    if currentLine != "" {
      CloseAll(lines, currentLine, words, maxWidth);
      lines := lines + [currentLine];
    }
    if lines == [] {
      lines := [""];
    }
  }
}
