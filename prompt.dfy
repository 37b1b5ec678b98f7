/**
 * Prompt templates in Python's `str.format` syntax, as the scripts write
 * them: literal text with `{name}` fields. The field names are what
 * `PromptTemplate` compares with its `input_variables`.
 */
module Prompt {
  import opened Basics
  import opened Text

  /** A run of literal text, or a `{name}` field. */
  datatype Piece = Literal(text: string) | Field(name: string)

  /** The template text as it is written in the source. */
  function Source(t: seq<Piece>): string
    decreases |t|
  {
    if t == [] then []
    else
      (match t[0]
       case Literal(text) => text
       case Field(name) => "{" + name + "}") + Source(t[1..])
  }

  /** The names of the fields of a template, read off its pieces. */
  function Placeholders(t: seq<Piece>): set<string>
    decreases |t|
  {
    if t == [] then {}
    else (if t[0].Field? then {t[0].name} else {}) + Placeholders(t[1..])
  }

  predicate BraceFree(s: string)
  {
    '{' !in s && '}' !in s
  }

  /** Literal text holds no brace and every field name is a plain name. */
  predicate WellFormed(t: seq<Piece>)
  {
    forall i :: 0 <= i < |t| ==>
      match t[i]
      case Literal(text) => BraceFree(text)
      case Field(name) => BraceFree(name)
  }

  /**
   * The field names of a template text whose fields are plain names, as
   * Python's `string.Formatter().parse` finds them: `{{` and `}}` are escaped
   * braces, a lone `}` or an unclosed `{` is an error (`None`). The whole text
   * between the braces is the name: a `!conversion` or `:format_spec` is not
   * split off, and a brace inside a field is an error.
   */
  function FieldNames(s: string): Option<set<string>>
    decreases |s|
  {
    if s == [] then Some({})
    else if |s| >= 2 && ((s[0] == '{' && s[1] == '{') || (s[0] == '}' && s[1] == '}')) then FieldNames(s[2..])
    else if s[0] == '}' then None
    else if s[0] == '{' then
      if '}' in s[1..] then
        var j := IndexOf(s[1..], '}');
        var name := s[1..j + 1];
        if '{' in name then None
        else match FieldNames(s[j + 2..])
          case None => None
          case Some(rest) => Some({name} + rest)
      else None
    else FieldNames(s[1..])
  }

  lemma {:induction false} FieldNamesSkipText(text: string, rest: string)
    requires BraceFree(text)
    ensures FieldNames(text + rest) == FieldNames(rest)
    decreases |text|
  {
    if text != [] {
      assert (text + rest)[1..] == text[1..] + rest;
      FieldNamesSkipText(text[1..], rest);
    } else {
      assert text + rest == rest;
    }
  }

  lemma FieldNamesOfField(name: string, rest: string)
    requires BraceFree(name)
    ensures FieldNames("{" + name + "}" + rest) ==
      match FieldNames(rest)
      case None => None
      case Some(names) => Some({name} + names)
  {
    var s := "{" + name + "}" + rest;
    assert s[1..] == name + ("}" + rest);
    assert s[1..][|name|] == '}';
    var j := IndexOf(s[1..], '}');
    assert forall k :: 0 <= k < |name| ==> s[1..][k] == name[k];
    assert j == |name|;
    assert s[1..j + 1] == name;
    assert s[j + 2..] == rest;
  }

  /** Python finds exactly the template's own fields in its source text. */
  lemma {:induction false} FieldNamesOfSource(t: seq<Piece>)
    requires WellFormed(t)
    ensures FieldNames(Source(t)) == Some(Placeholders(t))
    decreases |t|
  {
    if t != [] {
      assert WellFormed(t[1..]) by {
        forall i | 0 <= i < |t[1..]| ensures t[1..][i] == t[i + 1] {
        }
      }
      FieldNamesOfSource(t[1..]);
      match t[0]
      case Literal(text) =>
        assert Source(t) == text + Source(t[1..]);
        assert Placeholders(t) == Placeholders(t[1..]);
        assert BraceFree(text);
        FieldNamesSkipText(text, Source(t[1..]));
      case Field(name) =>
        assert Source(t) == "{" + name + "}" + Source(t[1..]);
        assert Placeholders(t) == {name} + Placeholders(t[1..]);
        assert BraceFree(name);
        FieldNamesOfField(name, Source(t[1..]));
    }
  }

  /** A long run of literal text, written as consecutive shorter runs. */
  function Concat(runs: seq<string>): string
    decreases |runs|
  {
    if runs == [] then [] else runs[0] + Concat(runs[1..])
  }

  /** Runs without braces make a text without braces. */
  lemma {:induction false} ConcatBraceFree(runs: seq<string>)
    requires forall i :: 0 <= i < |runs| ==> BraceFree(runs[i])
    ensures BraceFree(Concat(runs))
    decreases |runs|
  {
    if runs != [] {
      ConcatBraceFree(runs[1..]);
    }
  }

  /** Runs without a given character make a text without it. */
  lemma {:induction false} ConcatAvoids(runs: seq<string>, c: char)
    requires forall i :: 0 <= i < |runs| ==> c !in runs[i]
    ensures c !in Concat(runs)
    decreases |runs|
  {
    if runs != [] {
      ConcatAvoids(runs[1..], c);
    }
  }

  /** A template with two fields: text, a field, text, a field, text. */
  function TwoFieldTemplate(a: string, f: string, b: string, g: string, c: string): seq<Piece>
  {
    [Literal(a), Field(f), Literal(b), Field(g), Literal(c)]
  }

  /** Python finds exactly the two fields of such a template, whatever its brace-free text. */
  lemma TwoFieldNames(a: string, f: string, b: string, g: string, c: string)
    requires BraceFree(a) && BraceFree(b) && BraceFree(c) && BraceFree(f) && BraceFree(g)
    ensures FieldNames(Source(TwoFieldTemplate(a, f, b, g, c))) == Some({f, g})
  {
    var t := TwoFieldTemplate(a, f, b, g, c);
    assert WellFormed(t);
    FieldNamesOfSource(t);
    var t1, t2, t3, t4 := t[1..], t[2..], t[3..], t[4..];
    assert t1[1..] == t2 && t2[1..] == t3 && t3[1..] == t4 && t4[1..] == [];
    assert Placeholders(t4) == {};
    assert Placeholders(t3) == {g};
    assert Placeholders(t2) == {g};
    assert Placeholders(t1) == {f, g};
    assert Placeholders(t) == {f, g};
  }

  /** A two-field template over `context` and `msa_section`, the input variables of the review prompts. */
  lemma ContextSectionNames(a: string, b: string, c: string)
    requires BraceFree(a) && BraceFree(b) && BraceFree(c)
    ensures FieldNames(Source(TwoFieldTemplate(a, "context", b, "msa_section", c))) == Some({"context", "msa_section"})
  {
    assert BraceFree("context") && BraceFree("msa_section");
    TwoFieldNames(a, "context", b, "msa_section", c);
  }
}
