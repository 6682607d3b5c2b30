/** Expansion of ${VAR} and ${VAR:-default} in configuration text. */
module EnvExpansion {
  import opened Basics
  import Text

  /** The environment variables that are set. */
  type Vars = map<string, string>

  datatype ConfigError = EnvVar(name: string)

  type Expansion = Result<string, ConfigError>

  // ---- The grammar ------------------------------------------------------------------------------

  /** Text that starts a reference. */
  predicate Opens(s: string) {
    |s| >= 2 && s[0] == '$' && s[1] == '{'
  }

  /** The length of the longest prefix without a closing brace. */
  function UntilClose(s: string): (k: nat)
    ensures k <= |s|
    ensures forall i :: 0 <= i < k ==> s[i] != '}'
    ensures k < |s| ==> s[k] == '}'
  {
    if s == [] || s[0] == '}' then 0 else 1 + UntilClose(s[1..])
  }

  /** `find(":-")`. */
  function FindDefault(expr: string): (pos: Option<nat>)
    ensures pos.Some? ==> pos.value + 2 <= |expr| && expr[pos.value] == ':' && expr[pos.value + 1] == '-'
    ensures pos.Some? ==> forall i :: 0 <= i < pos.value ==> !(expr[i] == ':' && expr[i + 1] == '-')
    ensures pos.None? ==> forall i :: 0 <= i < |expr| - 1 ==> !(expr[i] == ':' && expr[i + 1] == '-')
  {
    if |expr| < 2 then None
    else if expr[..2] == ":-" then Some(0)
    else
      var rest := FindDefault(expr[1..]);
      if rest.Some? then Some(rest.value + 1) else None
  }

  /** The reference that a text starts with is closed. */
  predicate HasClose(s: string)
    requires Opens(s)
  {
    UntilClose(s[2..]) < |s| - 2
  }

  /** The text between the braces. */
  function Reference(s: string): string
    requires Opens(s) && HasClose(s)
  {
    s[2..][..UntilClose(s[2..])]
  }

  /** The text after the closing brace. */
  function AfterReference(s: string): (rest: string)
    requires Opens(s) && HasClose(s)
    ensures |rest| < |s|
  {
    s[2..][UntilClose(s[2..]) + 1..]
  }

  /** What a reference stands for. */
  function Substitute(vars: Vars, expr: string): Expansion {
    var pos := FindDefault(expr);
    var name := if pos.Some? then expr[..pos.value] else expr;
    if name in vars then Ok(vars[name])
    else if pos.Some? then Ok(expr[pos.value + 2..])
    else Err(EnvVar(name))
  }

  /** One expansion after another; the first error wins. */
  function Then(a: Expansion, b: Expansion): Expansion {
    if a.Err? then a else if b.Err? then b else Ok(a.value + b.value)
  }

  /** The meaning of a text: literal characters and closed references, up to an open reference if any. */
  ghost function Expand(vars: Vars, s: string): Expansion {
    if s == [] then Ok("")
    else if Opens(s) then
      if HasClose(s) then Then(Substitute(vars, Reference(s)), Expand(vars, AfterReference(s))) else Ok(s)
    else Then(Ok(s[..1]), Expand(vars, s[1..]))
  }

  /** No reference is left open. */
  ghost predicate Closed(s: string) {
    if s == [] then true
    else if Opens(s) then HasClose(s) && Closed(AfterReference(s))
    else Closed(s[1..])
  }

  /** The cut between two texts separates '$' from '{'. */
  ghost predicate CutsOpening(a: string, b: string) {
    a != [] && b != [] && a[|a| - 1] == '$' && b[0] == '{'
  }

  /** A name that can be written in a reference: no closing brace and no default separator. */
  ghost predicate IsName(name: string) {
    '}' !in name && forall i :: 0 <= i < |name| - 1 ==> !(name[i] == ':' && name[i + 1] == '-')
  }

  lemma CloseAt(expr: string)
    requires '}' !in expr
    ensures var s := "${" + expr + "}"; Opens(s) && HasClose(s) && Reference(s) == expr && AfterReference(s) == ""
  {
    var s := "${" + expr + "}";
    assert s[2..] == expr + "}";
    var k := UntilClose(s[2..]);
    assert forall i :: 0 <= i < |expr| ==> s[2..][i] == expr[i] && expr[i] in expr;
    assert s[2..][|expr|] == '}';
    assert k == |expr|;
  }

  /** ${NAME} is the variable's value, or an error naming it; ${NAME:-text} falls back on the text. */
  lemma ReferenceMeaning(vars: Vars, name: string, text: string)
    requires IsName(name) && '}' !in text
    ensures Expand(vars, "${" + name + "}") == if name in vars then Ok(vars[name]) else Err(EnvVar(name))
    ensures Expand(vars, "${" + (name + ":-" + text) + "}") == Ok(if name in vars then vars[name] else text)
  {
    var expr := name + ":-" + text;
    CloseAt(name);
    CloseAt(expr);
    assert FindDefault(name) == None;
    assert FindDefault(expr) == Some(|name|) by {
      assert expr[|name|] == ':' && expr[|name| + 1] == '-';
      assert forall i :: 0 <= i < |name| ==> expr[i] == name[i];
    }
    assert expr[..|name|] == name && expr[|name| + 2..] == text;
    assert Expand(vars, "") == Ok("");
    ThenAssociates(Substitute(vars, name), Ok(""), Ok(""));
    assert forall t: string :: t + "" == t;
  }

  lemma ThenAssociates(a: Expansion, b: Expansion, c: Expansion)
    ensures Then(Then(a, b), c) == Then(a, Then(b, c))
    ensures Then(Ok(""), c) == c
  {
    if a.Ok? && b.Ok? && c.Ok? {
      assert a.value + b.value + c.value == a.value + (b.value + c.value);
    }
    if c.Ok? {
      assert "" + c.value == c.value;
    }
  }

  /** Expansion splits at every cut that leaves no reference open and does not separate '$' from '{';
      errors propagate left to right. */
  lemma {:induction false} ExpandSplits(vars: Vars, a: string, b: string)
    requires Closed(a) && !CutsOpening(a, b)
    ensures Expand(vars, a + b) == Then(Expand(vars, a), Expand(vars, b))
    decreases |a|
  {
    if a == [] {
      assert a + b == b;
      ThenAssociates(Ok(""), Ok(""), Expand(vars, b));
    } else if Opens(a) {
      ReferenceOfLonger(a, b);
      ExpandSplits(vars, AfterReference(a), b);
      ThenAssociates(Substitute(vars, Reference(a)), Expand(vars, AfterReference(a)), Expand(vars, b));
    } else {
      assert (a + b)[..1] == a[..1] && (a + b)[1..] == a[1..] + b;
      assert !Opens(a + b);
      ExpandSplits(vars, a[1..], b);
      ThenAssociates(Ok(a[..1]), Expand(vars, a[1..]), Expand(vars, b));
    }
  }

  /** An opening without its closing brace is literal, with everything after it. */
  lemma OpenIsLiteral(vars: Vars, text: string)
    requires '}' !in text
    ensures Expand(vars, "${" + text) == Ok("${" + text)
  {
    var s := "${" + text;
    assert s[2..] == text;
    assert forall i :: 0 <= i < |text| ==> text[i] in text;
  }

  lemma ReferenceOfLonger(a: string, b: string)
    requires Opens(a) && HasClose(a)
    ensures Opens(a + b) && HasClose(a + b)
    ensures Reference(a + b) == Reference(a) && AfterReference(a + b) == AfterReference(a) + b
  {
    assert (a + b)[2..] == a[2..] + b;
    UntilCloseOfLonger(a[2..], b);
  }

  lemma {:induction false} UntilCloseOfLonger(s: string, t: string)
    requires UntilClose(s) < |s|
    ensures UntilClose(s + t) == UntilClose(s)
  {
    if s[0] != '}' {
      assert (s + t)[1..] == s[1..] + t;
      UntilCloseOfLonger(s[1..], t);
    }
  }

  // ---- The fixed point --------------------------------------------------------------------------

  /** The texts that the expansion of s puts in the place of references. */
  ghost function Substituted(vars: Vars, s: string): set<string> {
    if s == [] then {}
    else if !Opens(s) then Substituted(vars, s[1..])
    else if !HasClose(s) then {}
    else
      var text := Substitute(vars, Reference(s));
      (if text.Ok? then {text.value} else {}) + Substituted(vars, AfterReference(s))
  }

  /** The output, if there is one, expands to itself. */
  ghost predicate Settles(vars: Vars, s: string) {
    Expand(vars, s).Ok? ==> Expand(vars, Expand(vars, s).value) == Expand(vars, s)
  }

  /** A text that can neither open a reference by itself nor complete one with its neighbours. */
  ghost predicate Safe(text: string) {
    text != [] && text[0] != '{' && text[|text| - 1] != '$' && !Text.Contains(text, "${")
  }

  lemma {:induction false} NoOpeningIsClosed(vars: Vars, s: string)
    requires !Text.Contains(s, "${")
    ensures Closed(s) && Expand(vars, s) == Ok(s) && Substituted(vars, s) == {}
  {
    if s != [] {
      NoOpeningIsClosed(vars, s[1..]);
      assert s[..1] + s[1..] == s;
      assert Opens(s) ==> "${" <= s;
    }
  }

  lemma {:induction false} NoDollarIsClosed(vars: Vars, s: string)
    requires '$' !in s
    ensures Closed(s) && Expand(vars, s) == Ok(s) && Substituted(vars, s) == {}
  {
    NoDollarNoOpening(s);
    NoOpeningIsClosed(vars, s);
  }

  lemma {:induction false} NoDollarNoOpening(s: string)
    requires '$' !in s
    ensures !Text.Contains(s, "${")
  {
    if s != [] {
      assert s[0] in s && forall c :: c in s[1..] ==> c in s;
      NoDollarNoOpening(s[1..]);
    }
  }

  /** An output starts with an opening brace only when its input does. */
  lemma OutputHead(vars: Vars, s: string)
    requires Expand(vars, s).Ok? && forall t :: t in Substituted(vars, s) ==> Safe(t)
    ensures var out := Expand(vars, s).value; out != [] && out[0] == '{' ==> s != [] && s[0] == '{'
  {
    if Opens(s) && HasClose(s) {
      assert Substitute(vars, Reference(s)).value in Substituted(vars, s);
    }
  }

  /** When every substituted text is safe the output is a fixed point: expanding it again returns it unchanged. */
  lemma {:induction false} OutputIsFixedPoint(vars: Vars, s: string)
    requires forall t :: t in Substituted(vars, s) ==> Safe(t)
    ensures Settles(vars, s)
    decreases |s|
  {
    if Expand(vars, s).Ok? && s != [] {
      var out := Expand(vars, s).value;
      if !Opens(s) {
        var rest := Expand(vars, s[1..]).value;
        OutputIsFixedPoint(vars, s[1..]);
        OutputHead(vars, s[1..]);
        assert out[..1] == s[..1] && out[1..] == rest;
        assert !Opens(out);
      } else if HasClose(s) {
        var t, rest := Substitute(vars, Reference(s)).value, AfterReference(s);
        assert t in Substituted(vars, s);
        OutputIsFixedPoint(vars, rest);
        NoOpeningIsClosed(vars, t);
        ExpandSplits(vars, t, Expand(vars, rest).value);
      }
    }
  }

  // ---- When substituting a text is harmless -------------------------------------------------------

  /** Whatever is expanded, as long as only this text is substituted, the output is a fixed point. */
  ghost predicate Harmless(text: string) {
    forall vars, s :: Substituted(vars, s) <= {text} ==> Settles(vars, s)
  }

  /** The scan meets a closed reference. */
  ghost predicate HasReference(s: string) {
    if s == [] then false else if Opens(s) then HasClose(s) else HasReference(s[1..])
  }

  lemma {:induction false} OpenThenClose(a: string, b: string)
    ensures HasReference(a + ("${" + b + "}"))
  {
    var s := a + ("${" + b + "}");
    assert s[|s| - 1] == '}';
    if Opens(s) {
      assert s[2..][|s| - 3] == '}';
    } else {
      assert a != [];
      assert s[1..] == a[1..] + ("${" + b + "}");
      OpenThenClose(a[1..], b);
    }
  }

  /** Where no reference can name a variable, every substitution is a default, shorter than its reference. */
  lemma {:induction false} DefaultsShrink(vars: Vars, s: string)
    requires (forall n :: n in vars ==> |n| > |s|) && Expand(vars, s).Ok?
    ensures |Expand(vars, s).value| <= |s|
    ensures HasReference(s) ==> |Expand(vars, s).value| < |s|
    decreases |s|
  {
    if s != [] {
      if !Opens(s) {
        DefaultsShrink(vars, s[1..]);
      } else if HasClose(s) {
        assert |Substitute(vars, Reference(s)).value| <= |Reference(s)|;
        DefaultsShrink(vars, AfterReference(s));
      }
    }
  }

  function LongName(n: nat): (name: string)
    ensures |name| == n && forall c :: c in name ==> c == 'N'
  {
    seq(n, _ => 'N')
  }

  /** Between a '$' or nothing and a text without '$', a reference becomes its variable's value. */
  lemma InContext(vars: Vars, name: string, before: string, after: string)
    requires IsName(name) && name in vars && (before == "" || before == "$") && '$' !in after
    ensures Expand(vars, before + ("${" + name + "}" + after)) == Ok(before + (vars[name] + after))
    ensures Substituted(vars, before + ("${" + name + "}" + after)) == {vars[name]}
  {
    var ref := "${" + name + "}";
    ValueInContext(vars, name, after);
    if before == "" {
      assert before + (ref + after) == ref + after && before + (vars[name] + after) == vars[name] + after;
    } else {
      LiteralDollar(vars, ref + after);
      assert ("$" + (ref + after))[1..] == ref + after && !Opens("$" + (ref + after));
    }
  }

  lemma ValueInContext(vars: Vars, name: string, after: string)
    requires IsName(name) && name in vars && '$' !in after
    ensures Expand(vars, "${" + name + "}" + after) == Ok(vars[name] + after)
    ensures Substituted(vars, "${" + name + "}" + after) == {vars[name]}
  {
    var ref := "${" + name + "}";
    CloseAt(name);
    ReferenceOfLonger(ref, after);
    assert "" + after == after;
    assert FindDefault(name) == None;
    NoDollarIsClosed(vars, after);
  }

  /** An output that meets a reference, all names being longer than it, expands further. */
  lemma ReopenedIsHarmful(text: string, vars: Vars, s: string, out: string)
    requires Substituted(vars, s) == {text} && Expand(vars, s) == Ok(out)
    requires HasReference(out) && forall n :: n in vars ==> |n| > |out|
    ensures !Harmless(text)
  {
    if Expand(vars, out).Ok? {
      DefaultsShrink(vars, out);
    }
    assert !Settles(vars, s);
  }

  /** A text that some context turns into a reference is not harmless. */
  lemma ReopensInContext(text: string, before: string, after: string)
    requires (before == "" || before == "$") && '$' !in after && HasReference(before + (text + after))
    ensures !Harmless(text)
  {
    var out := before + (text + after);
    var name := LongName(|out| + 1);
    var vars: Vars := map[name := text];
    InContext(vars, name, before, after);
    ReopenedIsHarmful(text, vars, before + ("${" + name + "}" + after), out);
  }

  lemma UnsafeIsHarmful(text: string)
    requires !Safe(text)
    ensures !Harmless(text)
  {
    if text == [] {
      assert "$" + (text + "{M}") == "" + ("${" + "M" + "}");
      OpenThenClose("", "M");
      ReopensInContext(text, "$", "{M}");
    } else if text[0] == '{' {
      assert "$" + (text + "}") == "" + ("${" + text[1..] + "}");
      OpenThenClose("", text[1..]);
      ReopensInContext(text, "$", "}");
    } else if text[|text| - 1] == '$' {
      var front := text[..|text| - 1];
      assert "" + (text + "{M}") == front + ("${" + "M" + "}");
      OpenThenClose(front, "M");
      ReopensInContext(text, "", "{M}");
    } else {
      Text.ContainsMeans(text, "${");
      var a, b :| text == a + "${" + b;
      assert "" + (text + "}") == a + ("${" + b + "}");
      OpenThenClose(a, b);
      ReopensInContext(text, "", "}");
    }
  }

  /** Exactly the safe texts are harmless to substitute. */
  lemma SafeIffHarmless(text: string)
    ensures Safe(text) <==> Harmless(text)
  {
    if Safe(text) {
      forall vars, s | Substituted(vars, s) <= {text} ensures Settles(vars, s) {
        OutputIsFixedPoint(vars, s);
      }
    } else {
      UnsafeIsHarmful(text);
    }
  }

  /** The empty text at work: a reference that expands to nothing joins the '$' before it
      to the '{' after it, and expanding the output again substitutes that reference. */
  lemma EmptySubstitutionReopens(vars: Vars, ref: string, name: string)
    requires ref != [] && ref[0] == '$' && ref[|ref| - 1] == '}' && Closed(ref) && Expand(vars, ref) == Ok("")
    requires IsName(name) && '$' !in name && name in vars
    ensures var out := "${" + name + "}";
            Expand(vars, "$" + (ref + ("{" + name + "}"))) == Ok(out) && Expand(vars, out) == Ok(vars[name])
  {
    ReferenceMeaning(vars, name, "");
    OutputReopens(vars, ref, "{" + name + "}");
    assert "$" + ("{" + name + "}") == "${" + name + "}";
  }

  lemma OutputReopens(vars: Vars, ref: string, tail: string)
    requires ref != [] && ref[0] == '$' && ref[|ref| - 1] == '}' && Closed(ref) && Expand(vars, ref) == Ok("")
    requires '$' !in tail
    ensures Expand(vars, "$" + (ref + tail)) == Ok("$" + tail)
  {
    NoDollarIsClosed(vars, tail);
    ExpandSplits(vars, ref, tail);
    ThenAssociates(Ok(""), Ok(""), Ok(tail));
    LiteralDollar(vars, ref + tail);
  }

  lemma LiteralDollar(vars: Vars, rest: string)
    requires rest != [] && rest[0] != '{'
    ensures Expand(vars, "$" + rest) == Then(Ok("$"), Expand(vars, rest))
  {
    var s := "$" + rest;
    assert s[..1] == "$" && s[1..] == rest && s[1] == rest[0];
  }

  // ---- The scanner --------------------------------------------------------------------------------

  /** The loop over the characters of one reference, after its opening brace. */
  method ReadReference(s: string, start: nat) returns (varExpr: string, foundClose: bool, next: nat)
    requires start <= |s|
    ensures start <= next <= |s|
    ensures varExpr == s[start..][..UntilClose(s[start..])]
    ensures foundClose <==> UntilClose(s[start..]) < |s| - start
    ensures next == if foundClose then start + UntilClose(s[start..]) + 1 else |s|
  {
    varExpr, foundClose, next := "", false, start;
    while next < |s|
      invariant start <= next <= |s| && !foundClose
      invariant varExpr == s[start..next]
      invariant UntilClose(s[start..]) == next - start + UntilClose(s[next..])
    {
      var c := s[next];
      assert s[next..][1..] == s[next + 1..];
      next := next + 1;
      if c == '}' {
        foundClose := true;
        break;
      }
      varExpr := varExpr + [c];
    }
  }

  /** What is expanded so far, followed by the expansion of what is left. */
  ghost function Pending(vars: Vars, result: string, left: string): Expansion {
    Then(Ok(result), Expand(vars, left))
  }

  lemma CopyChar(vars: Vars, result: string, left: string)
    requires left != [] && !Opens(left)
    ensures Pending(vars, result, left) == Pending(vars, result + left[..1], left[1..])
  {
    ThenAssociates(Ok(result), Ok(left[..1]), Expand(vars, left[1..]));
  }

  lemma CopyOpen(vars: Vars, result: string, left: string)
    requires Opens(left) && !HasClose(left)
    ensures left == "${" + left[2..]
    ensures Pending(vars, result, left) == Pending(vars, result + "${" + left[2..], "")
  {
    assert left == "${" + left[2..];
    assert result + "${" + left[2..] + "" == result + left;
  }

  lemma CopySubstitute(vars: Vars, result: string, left: string)
    requires Opens(left) && HasClose(left)
    ensures var text := Substitute(vars, Reference(left));
            if text.Err? then Pending(vars, result, left) == text
            else Pending(vars, result, left) == Pending(vars, result + text.value, AfterReference(left))
  {
    ThenAssociates(Ok(result), Substitute(vars, Reference(left)), Expand(vars, AfterReference(left)));
  }

  lemma ReferenceAt(s: string, i: nat, next: nat)
    requires i <= |s| && Opens(s[i..])
    ensures s[i..][2..] == s[i + 2..]
    ensures HasClose(s[i..]) && next == i + 2 + UntilClose(s[i + 2..]) + 1 ==>
              next <= |s| && AfterReference(s[i..]) == s[next..]
  {
    assert s[i..][2..] == s[i + 2..];
    if HasClose(s[i..]) && next == i + 2 + UntilClose(s[i + 2..]) + 1 {
      assert s[i + 2..][UntilClose(s[i + 2..]) + 1..] == s[next..];
    }
  }

  method ExpandEnvVars(vars: Vars, s: string) returns (r: Expansion)
    ensures r == Expand(vars, s)
  {
    var result := "";
    var i := 0;
    assert s[0..] == s;
    ThenAssociates(Ok(""), Ok(""), Expand(vars, s));
    while i < |s|
      invariant 0 <= i <= |s|
      invariant Pending(vars, result, s[i..]) == Expand(vars, s)
    {
      var ch := s[i];
      ghost var left := s[i..];
      if ch == '$' && i + 1 < |s| && s[i + 1] == '{' {
        assert Opens(left);
        var varExpr, foundClose, next := ReadReference(s, i + 2);
        ReferenceAt(s, i, next);
        if !foundClose {
          CopyOpen(vars, result, left);
          assert varExpr == left[2..];
          result := result + "${" + varExpr;
        } else {
          CopySubstitute(vars, result, left);
          assert varExpr == Reference(left);
          var substituted := Substitute(vars, varExpr);
          if substituted.Err? {
            return substituted;
          }
          result := result + substituted.value;
        }
        i := next;
      } else {
        CopyChar(vars, result, left);
        assert left[1..] == s[i + 1..] && left[..1] == [ch];
        result := result + [ch];
        i := i + 1;
      }
    }
    assert result + "" == result;
    return Ok(result);
  }

  // ---- Optional fields ------------------------------------------------------------------------------

  class OptionalField {
    var value: Option<string>

    constructor (value: Option<string>)
      ensures this.value == value
    {
      this.value := value;
    }

    /** The contains test is a pure shortcut: the field ends up as if it were always expanded. */
    method ExpandOpt(vars: Vars) returns (r: Result<(), ConfigError>)
      modifies this
      ensures old(value).None? ==> r.Ok? && value == None
      ensures old(value).Some? ==>
                match Expand(vars, old(value).value)
                case Ok(text) => r.Ok? && value == Some(text)
                case Err(e) => r == Err(e) && value == old(value)
    {
      if value.Some? {
        if Text.Contains(value.value, "${") {
          var expanded := ExpandEnvVars(vars, value.value);
          if expanded.Err? {
            return Err(expanded.error);
          }
          value := Some(expanded.value);
        } else {
          NoOpeningIsClosed(vars, value.value);
        }
      }
      return Ok(());
    }
  }
}
