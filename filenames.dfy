/**
 * Output file names: `str.format` with one positional argument, for
 * templates whose braces are all `{}` placeholders, and
 * `format_filename_template`, which lower-cases the name and rejects a
 * template the name could not be put into.
 */
module Filenames {
  import opened Outcomes
  import opened Text

  /** Every brace of `t` belongs to a `{}` placeholder. */
  predicate BracesArePlaceholders(t: string)
  {
    if t == [] then true
    else if t[0] == '{' then |t| >= 2 && t[1] == '}' && BracesArePlaceholders(t[2..])
    else t[0] != '}' && BracesArePlaceholders(t[1..])
  }

  /** The pieces with `filler` put between neighbours. */
  function Fill(pieces: seq<string>, filler: string): string
  {
    if |pieces| == 0 then ""
    else if |pieces| == 1 then pieces[0]
    else pieces[0] + filler + Fill(pieces[1..], filler)
  }

  /** The brace-free text between the `{}` placeholders of `t`. */
  function Pieces(t: string): (pieces: seq<string>)
    requires BracesArePlaceholders(t)
    ensures |pieces| >= 1
    ensures forall i :: 0 <= i < |pieces| ==> '{' !in pieces[i] && '}' !in pieces[i]
    ensures Fill(pieces, "{}") == t
  {
    if t == [] then [""]
    else if t[0] == '{' then
      var rest := Pieces(t[2..]);
      assert t == "{}" + t[2..];
      [""] + rest
    else
      var rest := Pieces(t[1..]);
      var pieces := [[t[0]] + rest[0]] + rest[1..];
      assert pieces[1..] == rest[1..];
      assert |rest| >= 2 ==> Fill(rest, "{}") == rest[0] + "{}" + Fill(rest[1..], "{}");
      pieces
  }

  /** How many `{}` placeholders `t` has. */
  function Placeholders(t: string): nat
    requires BracesArePlaceholders(t)
  {
    |Pieces(t)| - 1
  }

  /**
   * `t.format(arg)`: no placeholder leaves `t` as it is, one is replaced by
   * `arg`, and a second one has no argument left (IndexError).
   */
  function Format(t: string, arg: string): (r: Result<string>)
    requires BracesArePlaceholders(t)
    ensures Placeholders(t) == 0 ==> r == Ok(t)
    ensures Placeholders(t) == 1 ==>
      && t == Pieces(t)[0] + "{}" + Pieces(t)[1]
      && r == Ok(Pieces(t)[0] + arg + Pieces(t)[1])
    ensures Placeholders(t) >= 2 ==> r == Err(FormatIndexError)
  {
    var pieces := Pieces(t);
    if |pieces| == 1 then Ok(t)
    else if |pieces| == 2 then
      assert Fill(pieces, "{}") == pieces[0] + "{}" + pieces[1] by {
        assert pieces[1..] == [pieces[1]];
      }
      Ok(pieces[0] + arg + pieces[1])
    else Err(FormatIndexError)
  }

  lemma LowerIsBracesOnlyForBraces(name: string)
    ensures Lower(name) == "{}" <==> name == "{}"
  {
    if Lower(name) == "{}" {
      assert |name| == 2;
      assert Lower(name)[0] == LowerChar(name[0]) && Lower(name)[1] == LowerChar(name[1]);
      assert name == "{}";
    }
  }

  lemma SameAroundMiddle(a: string, x: string, b: string, y: string)
    requires a + x + b == a + y + b
    ensures x == y
  {
    var s, t := a + x + b, a + y + b;
    assert |x| == |y|;
    assert x == s[|a|..|a| + |x|];
    assert y == t[|a|..|a| + |y|];
  }

  /** Filling the one placeholder gives the template back only for `{}` itself. */
  lemma FilledIsTemplateOnlyForBraces(t: string, arg: string)
    requires BracesArePlaceholders(t)
    ensures Placeholders(t) == 1 ==> (Format(t, arg).value == t <==> arg == "{}")
  {
    if Placeholders(t) == 1 && Format(t, arg).value == t {
      SameAroundMiddle(Pieces(t)[0], arg, Pieces(t)[1], "{}");
    }
  }

  /**
   * `format_filename_template`: the template with its placeholder replaced by
   * the lower-cased name. It fails (ValueError) when the result is the
   * template itself: the template has no placeholder, or the name is the
   * text `{}`.
   */
  function FormatFilenameTemplate(template: string, name: string): (r: Result<string>)
    requires BracesArePlaceholders(template)
    ensures r.Ok? <==> Placeholders(template) == 1 && name != "{}"
    ensures r == Err(NotATemplate) <==> Placeholders(template) == 0 || (Placeholders(template) == 1 && name == "{}")
    ensures r == Err(FormatIndexError) <==> Placeholders(template) >= 2
    ensures r.Ok? ==> r.value == Pieces(template)[0] + Lower(name) + Pieces(template)[1]
  {
    LowerIsBracesOnlyForBraces(name);
    FilledIsTemplateOnlyForBraces(template, Lower(name));
    match Format(template, Lower(name))
    case Err(e) => Err(e)
    case Ok(formatted) => if formatted == template then Err(NotATemplate) else Ok(formatted)
  }

  predicate BraceFree(p: string)
  {
    '{' !in p && '}' !in p
  }

  lemma {:induction false} PiecesOfBraceFree(p: string)
    requires BraceFree(p)
    ensures BracesArePlaceholders(p) && Pieces(p) == [p]
  {
    if p != [] {
      PiecesOfBraceFree(p[1..]);
      assert [p[0]] + p[1..] == p;
    }
  }

  lemma {:induction false} PiecesAfterPlaceholder(p: string, rest: string)
    requires BraceFree(p) && BracesArePlaceholders(rest)
    ensures BracesArePlaceholders(p + "{}" + rest)
    ensures Pieces(p + "{}" + rest) == [p] + Pieces(rest)
  {
    var t := p + "{}" + rest;
    if p == [] {
      assert t[2..] == rest;
    } else {
      assert t[1..] == p[1..] + "{}" + rest;
      PiecesAfterPlaceholder(p[1..], rest);
      assert [p[0]] + p[1..] == p;
    }
  }

  /** A template `before{}after` becomes `before<name in lower case>after`. */
  lemma FormatFillsSinglePlaceholder(before: string, after: string, name: string)
    requires BraceFree(before) && BraceFree(after)
    ensures BracesArePlaceholders(before + "{}" + after)
    ensures FormatFilenameTemplate(before + "{}" + after, name)
      == if name == "{}" then Err(NotATemplate) else Ok(before + Lower(name) + after)
  {
    PiecesOfBraceFree(after);
    PiecesAfterPlaceholder(before, after);
  }
}
