/**
 What becomes of the regular expressions of getCars on the way to PostgreSQL: buildWhere of
 backend/models/_base.js strips anchors, wherever they are, and puts the rest between wildcards of an
 ilike filter; inside an `or` filter it strips commas and percent signs as well.  PostgREST reads an
 asterisk in such a filter as a percent sign.  The pattern then means what LIKE means, without case.
 */
module IlikePattern {
  import opened SearchPattern
  import opened Text

  // text ILIKE pattern; a backslash takes the next character literally.
  predicate Like(p: string, t: string)
    decreases |p|, |t|
  {
    if p == [] then t == []
    else if p[0] == '%' then Like(p[1..], t) || (t != [] && Like(p, t[1..]))
    else if p[0] == '_' then t != [] && Like(p[1..], t[1..])
    else if p[0] == '\\' then |p| > 1 && t != [] && LowerChar(t[0]) == LowerChar(p[1]) && Like(p[2..], t[1..])
    else t != [] && LowerChar(t[0]) == LowerChar(p[0]) && Like(p[1..], t[1..])
  }

  // t.replace(/[...]/g, "")
  function Strip(t: string, chars: string): string {
    if t == [] then [] else (if t[0] in chars then [] else [t[0]]) + Strip(t[1..], chars)
  }

  function Stars(t: string): string {
    if t == [] then [] else [if t[0] == '*' then '%' else t[0]] + Stars(t[1..])
  }

  const ANCHORS := "^$"
  const ANCHORS_AND_LIST := ",%^$"

  function Core(regex: string, chars: string): string { Stars(Strip(regex, chars)) }

  function Wrapped(regex: string, chars: string): string { "%" + Core(regex, chars) + "%" }

  // The filter on a column, and the one inside `or`.
  function ColumnPattern(regex: string): string { Wrapped(regex, ANCHORS) }
  function OrPattern(regex: string): string { Wrapped(regex, ANCHORS_AND_LIST) }

  // ---------- texts that come through unharmed ----------

  predicate Strippable(chars: string) { chars == ANCHORS || chars == ANCHORS_AND_LIST }

  // None of the characters that are stripped, replaced or wild.
  predicate Plain(s: string, chars: string) {
    forall i | 0 <= i < |s| :: s[i] !in "^$*_%" && s[i] !in chars
  }

  lemma {:induction false} StripAppend(a: string, b: string, chars: string)
    ensures Strip(a + b, chars) == Strip(a, chars) + Strip(b, chars)
  {
    if a == [] {
      assert a + b == b;
    } else {
      assert (a + b)[1..] == a[1..] + b;
      StripAppend(a[1..], b, chars);
    }
  }

  lemma {:induction false} StarsAppend(a: string, b: string)
    ensures Stars(a + b) == Stars(a) + Stars(b)
  {
    if a == [] {
      assert a + b == b;
    } else {
      assert (a + b)[1..] == a[1..] + b;
      StarsAppend(a[1..], b);
    }
  }

  lemma CoreAppend(a: string, b: string, chars: string)
    ensures Core(a + b, chars) == Core(a, chars) + Core(b, chars)
  {
    StripAppend(a, b, chars);
    StarsAppend(Strip(a, chars), Strip(b, chars));
  }

  function Code(c: char): string { if c in OPERATORS then ['\\', c] else [c] }

  lemma CharCore(c: char, chars: string)
    ensures Core([c], chars) == if c in chars then [] else [if c == '*' then '%' else c]
  {
    assert [c][1..] == [] && Strip([], chars) == [] && Stars([]) == [];
    assert Strip([c], chars) == if c in chars then [] else [c];
  }

  // What stands for one character of the user's text.
  function Piece(c: char, chars: string): string {
    if c in OPERATORS then
      (if c == '^' || c == '$' then ['\\'] else if c == '*' then ['\\', '%'] else ['\\', c])
    else if c in chars then [] else [c]
  }

  lemma CodeCore(c: char, chars: string)
    requires Strippable(chars)
    ensures Core(Code(c), chars) == Piece(c, chars)
  {
    hide Core;
    Operators();
    CharCore(c, chars);
    CharCore('\\', chars);
    CoreAppend(['\\'], [c], chars);
    assert ['\\'] + [c] == ['\\', c];
    if c in OPERATORS {
      InChars(c, chars);
    }
  }

  // Of the operators, only the anchors are stripped.
  lemma InChars(c: char, chars: string)
    requires Strippable(chars) && c in OPERATORS
    ensures c in chars <==> c == '^' || c == '$'
  {
    Operators();
  }

  lemma Operators()
    ensures '^' in OPERATORS && '$' in OPERATORS && '*' in OPERATORS && '\\' in OPERATORS
    ensures '%' !in OPERATORS && '_' !in OPERATORS && ',' !in OPERATORS
    ensures '\\' !in ANCHORS && '\\' !in ANCHORS_AND_LIST
  {
    assert OPERATORS[4] == '^' && OPERATORS[5] == '$' && OPERATORS[1] == '*' && OPERATORS[13] == '\\';
    NotOperators();
    NotStripped();
  }

  lemma NotOperators()
    ensures '%' !in OPERATORS && '_' !in OPERATORS && ',' !in OPERATORS
  {
  }

  lemma NotStripped()
    ensures '\\' !in ANCHORS && '\\' !in ANCHORS_AND_LIST
  {
  }

  // The anchors of an exact text are stripped: what is left is the pattern of the text alone.
  lemma AnchorsGone(s: string)
    ensures ColumnPattern(Anchored(s)) == ColumnPattern(Escape(s))
  {
    CoreAppend("^" + Escape(s), "$", ANCHORS);
    CoreAppend("^", Escape(s), ANCHORS);
    assert Core("^", ANCHORS) == [] by { assert "^"[1..] == []; }
    assert Core("$", ANCHORS) == [] by { assert "$"[1..] == []; }
  }

  lemma {:induction false} PlainCore(s: string, chars: string)
    requires Plain(s, chars) && Strippable(chars)
    ensures Core(Escape(s), chars) == Escape(s)
  {
    if s != [] {
      var c := s[0];
      assert Escape(s) == Code(c) + Escape(s[1..]);
      CoreAppend(Code(c), Escape(s[1..]), chars);
      CodeCore(c, chars);
      Operators();
      PlainCore(s[1..], chars);
    }
  }

  lemma {:induction false} LikeAll(t: string)
    ensures Like("%", t)
  {
    if t != [] {
      LikeAll(t[1..]);
    } else {
      assert Like("%"[1..], t);
    }
  }

  lemma {:induction false} LikeAnywhere(q: string, t: string)
    ensures Like("%" + q, t) <==> exists i :: 0 <= i <= |t| && Like(q, t[i..])
  {
    var p := "%" + q;
    assert p[0] == '%' && p[1..] == q && t[0..] == t;
    if t != [] {
      LikeAnywhere(q, t[1..]);
      if i :| 0 <= i <= |t| && Like(q, t[i..]) {
        if i > 0 {
          assert t[1..][i - 1..] == t[i..];
        }
      }
      if i :| 0 <= i <= |t[1..]| && Like(q, t[1..][i..]) {
        assert t[1..][i..] == t[i + 1..];
      }
    }
  }

  lemma {:induction false} LikePlain(s: string, t: string)
    requires Plain(s, ANCHORS)
    ensures Like(Escape(s) + "%", t) <==> StartsSame(t, s)
  {
    if s == [] {
      assert Escape(s) + "%" == "%" && t[..0] == [];
      LikeAll(t);
    } else {
      var c, rest := s[0], Escape(s[1..]) + "%";
      assert Escape(s) + "%" == Code(c) + rest;
      LikeCode(c, rest, t);
      if t != [] {
        LikePlain(s[1..], t[1..]);
        StartsStep(t, s);
      }
    }
  }

  lemma LikeCode(c: char, rest: string, t: string)
    requires c !in "^$*_%"
    ensures Like(Code(c) + rest, t) <==> t != [] && LowerChar(t[0]) == LowerChar(c) && Like(rest, t[1..])
  {
    Operators();
    var p := Code(c) + rest;
    assert c == '\\' ==> c in OPERATORS;
    if c in OPERATORS {
      assert p[0] == '\\' && p[1] == c && p[2..] == rest;
    } else {
      assert p[0] == c && p[1..] == rest;
    }
  }

  lemma StartsStep(t: string, s: string)
    requires t != [] && s != []
    ensures StartsSame(t, s) <==> LowerChar(t[0]) == LowerChar(s[0]) && StartsSame(t[1..], s[1..])
  {
    if |s| <= |t| {
      var head := t[..|s|];
      assert head[0] == t[0] && head[1..] == t[1..][..|s| - 1];
      assert Lower(head) == [LowerChar(t[0])] + Lower(head[1..]);
      assert Lower(s) == [LowerChar(s[0])] + Lower(s[1..]);
      assert Lower(head)[1..] == Lower(head[1..]) && Lower(s)[1..] == Lower(s[1..]);
    }
  }

  // A plain text is found where it is contained, and nowhere else.
  lemma PlainContains(s: string, chars: string, t: string)
    requires Plain(s, chars) && Strippable(chars)
    ensures Like(Wrapped(Escape(s), chars), t) <==> ContainsText(t, s)
  {
    PlainCore(s, chars);
    assert Wrapped(Escape(s), chars) == "%" + (Escape(s) + "%");
    LikeAnywhere(Escape(s) + "%", t);
    forall i | 0 <= i <= |t|
      ensures Like(Escape(s) + "%", t[i..]) <==> StartsSame(t[i..], s)
    {
      LikePlain(s, t[i..]);
    }
  }

  // ---------- texts that do not ----------

  // A text that the pattern matches: nothing for a wildcard, x for any character.
  function Instance(p: string): string
    decreases |p|
  {
    if p == [] then []
    else if p[0] == '%' then Instance(p[1..])
    else if p[0] == '_' then "x" + Instance(p[1..])
    else if p[0] == '\\' then if |p| > 1 then [p[1]] + Instance(p[2..]) else []
    else [p[0]] + Instance(p[1..])
  }

  lemma {:induction false} InstanceLikes(p: string)
    requires p == [] || p[|p| - 1] == '%'
    ensures Like(p, Instance(p))
    decreases |p|
  {
    if p != [] {
      if p[0] == '\\' {
        InstanceLikes(p[2..]);
        assert Instance(p)[1..] == Instance(p[2..]);
      } else {
        InstanceLikes(p[1..]);
        if p[0] != '%' {
          assert Instance(p)[1..] == Instance(p[1..]);
        }
      }
    }
  }

  lemma {:induction false} InstanceChars(p: string, c: char)
    requires c in Instance(p)
    ensures c in p || c == 'x'
    decreases |p|
  {
    if p[0] == '%' {
      InstanceChars(p[1..], c);
    } else if p[0] == '_' {
      if c != 'x' {
        assert c in Instance(p[1..]);
        InstanceChars(p[1..], c);
      }
    } else if p[0] == '\\' {
      if |p| > 1 && c != p[1] {
        assert c in Instance(p[2..]);
        InstanceChars(p[2..], c);
      }
    } else if c != p[0] {
      assert c in Instance(p[1..]);
      InstanceChars(p[1..], c);
    }
  }

  // What is found stays found with more in front of it.
  lemma LikePrefix(q: string, u: string, t: string)
    requires Like("%" + q, t)
    ensures Like("%" + q, u + t)
  {
    LikeAnywhere(q, t);
    var i :| 0 <= i <= |t| && Like(q, t[i..]);
    assert (u + t)[|u| + i..] == t[i..];
    LikeAnywhere(q, u + t);
  }

  lemma {:induction false} CoreChars(t: string, chars: string, c: char)
    requires c in Core(t, chars)
    ensures (c in t && c !in chars && c != '*') || c == '%'
  {
    if t != [] {
      assert t == [t[0]] + t[1..];
      CoreAppend([t[0]], t[1..], chars);
      assert Core([t[0]], chars) == if t[0] in chars then [] else [if t[0] == '*' then '%' else t[0]] by {
        assert [t[0]][1..] == [];
        assert Strip([t[0]], chars) == if t[0] in chars then [] else [t[0]];
      }
      if c !in Core([t[0]], chars) {
        CoreChars(t[1..], chars, c);
      }
    }
  }

  // What stays of a text without anchors and asterisks.
  function Kept(s: string, chars: string): string {
    if s == [] then []
    else (if s[0] in chars || s[0] == '%' then [] else if s[0] == '_' then "x" else [s[0]]) + Kept(s[1..], chars)
  }

  lemma PieceInstance(c: char, rest: string, chars: string)
    requires Strippable(chars) && c !in "^$*"
    ensures Instance(Piece(c, chars) + rest)
         == (if c in chars || c == '%' then [] else if c == '_' then "x" else [c]) + Instance(rest)
  {
    Operators();
    var head := Piece(c, chars);
    if c in OPERATORS {
      InChars(c, chars);
      assert (head + rest)[0] == '\\' && (head + rest)[1] == c && (head + rest)[2..] == rest;
    } else if c in chars {
      assert head + rest == rest;
    } else {
      assert (head + rest)[0] == c && (head + rest)[1..] == rest;
    }
  }

  lemma {:induction false} InstanceKept(s: string, chars: string)
    requires Strippable(chars) && forall i | 0 <= i < |s| :: s[i] !in "^$*"
    ensures Instance(Core(Escape(s), chars) + "%") == Kept(s, chars)
  {
    if s == [] {
      assert Core(Escape(s), chars) + "%" == "%" && "%"[1..] == [];
    } else {
      var c := s[0];
      var rest := Core(Escape(s[1..]), chars) + "%";
      InstanceKept(s[1..], chars);
      assert Escape(s) == Code(c) + Escape(s[1..]);
      hide Core, Piece, Instance, Escape, Code;
      CoreAppend(Code(c), Escape(s[1..]), chars);
      CodeCore(c, chars);
      PieceInstance(c, rest, chars);
      assert Core(Escape(s), chars) + "%" == Piece(c, chars) + rest;
    }
  }

  lemma {:induction false} KeptChars(s: string, chars: string, c: char)
    requires c in Kept(s, chars) && c != 'x'
    ensures c !in chars && c != '%' && c != '_'
  {
    if c in Kept(s[1..], chars) {
      KeptChars(s[1..], chars, c);
    }
  }

  lemma Carries(t: string, s: string, k: nat)
    requires StartsSame(t, s) && k < |s|
    ensures LowerChar(t[k]) == LowerChar(s[k])
  {
    LowerAt(s, k);
    LowerAt(t[..|s|], k);
  }

  // A text that lacks one of the characters of s, which is no letter, does not contain s.
  lemma Lacks(t: string, s: string, c: char)
    requires c in s && c !in t && c in "^$*_%,"
    ensures !ContainsText(t, s)
  {
    var k :| 0 <= k < |s| && s[k] == c;
    forall i | 0 <= i <= |t|
      ensures !StartsSame(t[i..], s)
    {
      if StartsSame(t[i..], s) {
        Carries(t[i..], s, k);
      }
    }
  }

  // A text that is not plain has a witness: it is found without containing the text.
  lemma NotPlainDiffers(s: string, chars: string)
    requires !Plain(s, chars) && Strippable(chars)
    ensures var p := Wrapped(Escape(s), chars);
      Like(p, Instance(p)) && !ContainsText(Instance(p), s)
  {
    var core := Core(Escape(s), chars);
    var p := Wrapped(Escape(s), chars);
    InstanceLikes(p);
    assert p == "%" + (core + "%") && p[1..] == core + "%";
    if c :| c in s && c in "^$*" {
      if c in Instance(p) {
        InstanceChars(p, c);
        assert c in core;
        CoreChars(Escape(s), chars, c);
      }
      Lacks(Instance(p), s, c);
    } else {
      InstanceKept(s, chars);
      var i :| 0 <= i < |s| && (s[i] in "^$*_%" || s[i] in chars);
      if s[i] in Instance(p) {
        KeptChars(s, chars, s[i]);
      }
      Lacks(Instance(p), s, s[i]);
    }
  }

  // ---------- wildcards ----------

  ghost predicate LikeFrom(p: string, t: string, i: int) { 0 <= i <= |t| && Like(p, t[i..]) }

  // A percent sign stands for any stretch of text, an underscore for any one character.
  lemma {:induction false} WildcardsMean(p: string, t: string)
    ensures Like("%" + p, t) <==> exists i :: LikeFrom(p, t, i)
    ensures Like("_" + p, t) <==> t != "" && LikeFrom(p, t, 1)
  {
    assert ("%" + p)[1..] == p && ("_" + p)[1..] == p;
    assert t[0..] == t;
    if t != "" {
      WildcardsMean(p, t[1..]);
      forall i | 1 <= i <= |t|
        ensures LikeFrom(p, t[1..], i - 1) <==> LikeFrom(p, t, i)
      {
        assert t[1..][i - 1..] == t[i..];
      }
      if i :| LikeFrom(p, t, i) {
        assert i > 0 ==> LikeFrom(p, t[1..], i - 1);
      }
      if i :| LikeFrom(p, t[1..], i) {
        assert LikeFrom(p, t, i + 1);
      }
    }
    if Like(p, t) {
      assert LikeFrom(p, t, 0);
    }
  }
}
