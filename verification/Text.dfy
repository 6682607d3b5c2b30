/** Rust's string operations that the modelled code relies on, over Unicode scalar values. */
module Text {
  import opened Basics

  /** `char::is_whitespace`: the Unicode White_Space property. */
  predicate IsWhitespace(c: char) {
    var n := c as int;
    || 0x09 <= n <= 0x0D || n == 0x20 || n == 0x85 || n == 0xA0 || n == 0x1680
    || 0x2000 <= n <= 0x200A || n == 0x2028 || n == 0x2029 || n == 0x202F || n == 0x205F || n == 0x3000
  }

  /** Bytes of one scalar value in UTF-8. */
  function CharLen(c: char): (n: nat)
    ensures 1 <= n <= 4
  {
    if c as int < 0x80 then 1 else if c as int < 0x800 then 2 else if c as int < 0x10000 then 3 else 4
  }

  /** `str::len`: the length in bytes. */
  function ByteLen(s: string): nat {
    if s == [] then 0 else CharLen(s[0]) + ByteLen(s[1..])
  }

  lemma {:induction false} ByteLenConcat(a: string, b: string)
    ensures ByteLen(a + b) == ByteLen(a) + ByteLen(b)
  {
    if a == [] {
      assert a + b == b;
    } else {
      assert (a + b)[1..] == a[1..] + b;
      ByteLenConcat(a[1..], b);
    }
  }

  /** `str::contains`. */
  predicate Contains(s: string, part: string) {
    part <= s || (s != [] && Contains(s[1..], part))
  }

  lemma {:induction false} ContainsMeans(s: string, part: string)
    ensures Contains(s, part) <==> exists a, b :: s == a + part + b
  {
    if part <= s {
      assert s == [] + part + s[|part|..];
    } else if s != [] {
      ContainsMeans(s[1..], part);
      if Contains(s[1..], part) {
        var a, b :| s[1..] == a + part + b;
        assert s == ([s[0]] + a) + part + b;
      }
      if a, b :| s == a + part + b {
        assert a == [] ==> s == part + b;
        assert s[1..] == a[1..] + part + b;
      }
    }
  }

  // ---- Words --------------------------------------------------------------------------------

  ghost predicate IsWord(w: string) {
    w != [] && forall c :: c in w ==> !IsWhitespace(c)
  }

  /** The length of the longest prefix without whitespace. */
  function WordEnd(s: string): (k: nat)
    ensures k <= |s|
    ensures forall i :: 0 <= i < k ==> !IsWhitespace(s[i])
    ensures k < |s| ==> IsWhitespace(s[k])
  {
    if s == [] || IsWhitespace(s[0]) then 0 else 1 + WordEnd(s[1..])
  }

  /** `split_whitespace`. */
  function Words(s: string): (ws: seq<string>)
    ensures forall i :: 0 <= i < |ws| ==> IsWord(ws[i])
  {
    if s == [] then []
    else if IsWhitespace(s[0]) then Words(s[1..])
    else
      var k := WordEnd(s);
      [s[..k]] + Words(s[k..])
  }

  lemma WordsOfWord(w: string)
    requires IsWord(w)
    ensures Words(w) == [w]
  {
    assert WordEnd(w) == |w|;
    assert w[..|w|] == w;
  }

  lemma WordEndOfLonger(a: string, c: char, b: string)
    requires IsWhitespace(c)
    ensures WordEnd(a + [c] + b) == WordEnd(a)
  {
    var s, k := a + [c] + b, WordEnd(a);
    assert k < |s| && IsWhitespace(s[k]) && forall i :: 0 <= i < k ==> s[i] == a[i];
  }

  /** Any whitespace separates words, and nothing else does. */
  lemma {:induction false} WordsSplit(a: string, c: char, b: string)
    requires IsWhitespace(c)
    ensures Words(a + [c] + b) == Words(a) + Words(b)
    decreases |a|
  {
    var s := a + [c] + b;
    if a == [] {
      assert s[1..] == b;
    } else if IsWhitespace(a[0]) {
      assert s[1..] == a[1..] + [c] + b;
      WordsSplit(a[1..], c, b);
    } else {
      var k := WordEnd(a);
      WordEndOfLonger(a, c, b);
      assert s[..k] == a[..k] && s[k..] == a[k..] + [c] + b;
      WordsSplit(a[k..], c, b);
      assert Words(s) == [s[..k]] + Words(s[k..]) && Words(a) == [a[..k]] + Words(a[k..]);
    }
  }

  lemma WordsAppend(a: string, w: string)
    requires IsWord(w)
    ensures Words(a + " " + w) == Words(a) + [w]
  {
    WordsSplit(a, ' ', w);
    WordsOfWord(w);
  }

  // ---- Lines --------------------------------------------------------------------------------

  /** The length of the longest prefix without a newline. */
  function LineEnd(s: string): (k: nat)
    ensures k <= |s|
    ensures forall i :: 0 <= i < k ==> s[i] != '\n'
    ensures k < |s| ==> s[k] == '\n'
  {
    if s == [] || s[0] == '\n' then 0 else 1 + LineEnd(s[1..])
  }

  function StripCarriageReturn(s: string): string {
    if s != [] && s[|s| - 1] == '\r' then s[..|s| - 1] else s
  }

  /** `str::lines`: a carriage return goes only with the newline that follows it. */
  function Lines(s: string): seq<string> {
    if s == [] then [] else
    var k := LineEnd(s);
    if k == |s| then [s] else [StripCarriageReturn(s[..k])] + Lines(s[k + 1..])
  }

  /** A newline ends a line, with the carriage return before it; a last line needs none. */
  lemma LinesSplit(line: string, rest: string)
    requires '\n' !in line
    ensures Lines(line + "\n" + rest) == [StripCarriageReturn(line)] + Lines(rest)
    ensures Lines(line) == if line == [] then [] else [line]
  {
    var content := line + "\n" + rest;
    assert forall i :: 0 <= i < |line| ==> content[i] == line[i] && line[i] in line;
    assert content[|line|] == '\n';
    assert LineEnd(content) == |line| == LineEnd(line);
    assert content[..|line|] == line && content[|line| + 1..] == rest;
  }

  function TrimStart(s: string): string {
    if s != [] && IsWhitespace(s[0]) then TrimStart(s[1..]) else s
  }

  function TrimEnd(s: string): string {
    if s != [] && IsWhitespace(s[|s| - 1]) then TrimEnd(s[..|s| - 1]) else s
  }

  /** `str::trim`. */
  function Trim(s: string): string {
    TrimEnd(TrimStart(s))
  }

  /** A line that reading a file back reproduces: not blank, trimmed, in one piece. */
  ghost predicate CleanLine(s: string) {
    s != [] && '\n' !in s && !IsWhitespace(s[0]) && !IsWhitespace(s[|s| - 1])
  }

  /** The trimmed lines of a file, blank lines dropped. */
  function CleanLines(content: string): seq<string> {
    TrimAll(Lines(content))
  }

  /** A line after trimming, unless nothing is left of it. */
  function Kept(line: string): seq<string> {
    if Trim(line) == [] then [] else [Trim(line)]
  }

  function TrimAll(lines: seq<string>): seq<string> {
    Collect(lines, Kept)
  }

  /** `lines.join("\n")`. */
  function JoinLines(lines: seq<string>): string {
    if lines == [] then "" else
    if |lines| == 1 then lines[0] else lines[0] + "\n" + JoinLines(lines[1..])
  }

  lemma LinesCons(line: string, rest: string)
    requires CleanLine(line)
    ensures Lines(line + "\n" + rest) == [line] + Lines(rest)
  {
    LinesSplit(line, rest);
  }

  lemma TrimClean(line: string)
    requires CleanLine(line)
    ensures TrimAll([line]) == [line]
  {
    assert Kept(line) == [line];
    CollectOne(line, Kept);
  }

  /** What is written as clean lines is read back as those lines. */
  lemma {:induction false} ReadBack(lines: seq<string>)
    requires lines != [] && forall i :: 0 <= i < |lines| ==> CleanLine(lines[i])
    ensures CleanLines(JoinLines(lines) + "\n") == lines
  {
    var line := lines[0];
    var rest := if |lines| == 1 then "" else JoinLines(lines[1..]) + "\n";
    assert JoinLines(lines) + "\n" == line + "\n" + rest;
    LinesCons(line, rest);
    CollectConcat([line], Lines(rest), Kept);
    TrimClean(line);
    if |lines| > 1 {
      ReadBack(lines[1..]);
    }
    assert lines == [line] + lines[1..];
  }

  lemma {:induction false} LinesHaveNoNewline(s: string)
    ensures forall i :: 0 <= i < |Lines(s)| ==> '\n' !in Lines(s)[i]
    decreases |s|
  {
    if s != [] {
      var k := LineEnd(s);
      assert '\n' !in s[..k];
      if k < |s| {
        LinesHaveNoNewline(s[k + 1..]);
      } else {
        assert s[..k] == s;
      }
    }
  }

  lemma {:induction false} TrimStartFacts(s: string)
    ensures var t := TrimStart(s); (t != [] ==> !IsWhitespace(t[0])) && forall c :: c in t ==> c in s
  {
    if s != [] && IsWhitespace(s[0]) {
      TrimStartFacts(s[1..]);
    }
  }

  lemma {:induction false} TrimEndFacts(s: string)
    ensures var t := TrimEnd(s);
            && (t != [] ==> !IsWhitespace(t[|t| - 1]) && t[0] == s[0])
            && (forall c :: c in t ==> c in s) && (s == [] ==> t == [])
  {
    if s != [] && IsWhitespace(s[|s| - 1]) {
      TrimEndFacts(s[..|s| - 1]);
    }
  }

  ghost predicate Blank(s: string) {
    forall c :: c in s ==> IsWhitespace(c)
  }

  lemma {:induction false} TrimStartCuts(s: string) returns (a: string)
    ensures Blank(a) && s == a + TrimStart(s)
  {
    a := [];
    if s != [] && IsWhitespace(s[0]) {
      a := TrimStartCuts(s[1..]);
      a := [s[0]] + a;
    }
  }

  lemma {:induction false} TrimEndCuts(s: string) returns (b: string)
    ensures Blank(b) && s == TrimEnd(s) + b
  {
    b := [];
    if s != [] && IsWhitespace(s[|s| - 1]) {
      b := TrimEndCuts(s[..|s| - 1]);
      b := b + [s[|s| - 1]];
    }
  }

  /** Trimming cuts off whitespace at both ends, all of it, and nothing else. */
  lemma TrimCuts(s: string) returns (a: string, b: string)
    ensures Blank(a) && Blank(b) && s == a + Trim(s) + b
    ensures Trim(s) != [] ==> !IsWhitespace(Trim(s)[0]) && !IsWhitespace(Trim(s)[|Trim(s)| - 1])
  {
    a := TrimStartCuts(s);
    b := TrimEndCuts(TrimStart(s));
    TrimStartFacts(s);
    TrimEndFacts(TrimStart(s));
    assert s == a + (Trim(s) + b) == a + Trim(s) + b;
  }

  lemma TrimIsClean(line: string)
    requires '\n' !in line && Trim(line) != []
    ensures CleanLine(Trim(line))
  {
    TrimStartFacts(line);
    TrimEndFacts(TrimStart(line));
  }

  lemma {:induction false} TrimAllIsClean(lines: seq<string>)
    requires forall i :: 0 <= i < |lines| ==> '\n' !in lines[i]
    ensures forall i :: 0 <= i < |TrimAll(lines)| ==> CleanLine(TrimAll(lines)[i])
  {
    if lines != [] {
      var front, last := lines[..|lines| - 1], lines[|lines| - 1];
      TrimAllIsClean(front);
      if Trim(last) != [] {
        TrimIsClean(last);
      }
      assert TrimAll(lines) == TrimAll(front) + Kept(last);
    }
  }

  lemma CleanLinesAreClean(content: string)
    ensures forall i :: 0 <= i < |CleanLines(content)| ==> CleanLine(CleanLines(content)[i])
  {
    LinesHaveNoNewline(content);
    TrimAllIsClean(Lines(content));
  }
}
