/**
 The regular expressions that getCars of backend/controllers/carController.js writes into its queries:
 user text with every operator character escaped, alone or between anchors, matched without case.
 The reader below knows literals, escapes and the two anchors; that is enough, because what the
 controller writes always reads back as the user's text.
 */
module SearchPattern {
  import opened Wrappers
  import opened Text

  const OPERATORS := ".*+?^${}()|[]\\"

  // s.replace(/[.*+?^${}()|[\]\\]/g, "\\$&")
  function Escape(s: string): string {
    if s == [] then []
    else (if s[0] in OPERATORS then ['\\', s[0]] else [s[0]]) + Escape(s[1..])
  }

  function Anchored(s: string): string { "^" + Escape(s) + "$" }

  datatype Pattern = Pattern(start: bool, literal: string, end: bool)

  // Literals up to the end, or to a final dollar; an operator that is not escaped is not understood.
  function ReadLiterals(t: string): Option<Pattern> {
    if t == [] then Some(Pattern(false, [], false))
    else if t == "$" then Some(Pattern(false, [], true))
    else if t[0] == '\\' then
      if |t| < 2 || t[1] !in OPERATORS then None
      else
        match ReadLiterals(t[2..])
        case None => None
        case Some(p) => Some(p.(literal := [t[1]] + p.literal))
    else if t[0] in OPERATORS then None
    else
      match ReadLiterals(t[1..])
      case None => None
      case Some(p) => Some(p.(literal := [t[0]] + p.literal))
  }

  function Read(t: string): Option<Pattern> {
    if t != [] && t[0] == '^' then
      match ReadLiterals(t[1..])
      case None => None
      case Some(p) => Some(p.(start := true))
    else ReadLiterals(t)
  }

  // The i flag.
  predicate SameText(a: string, b: string) { Lower(a) == Lower(b) }

  predicate StartsSame(text: string, part: string) {
    |part| <= |text| && SameText(text[..|part|], part)
  }

  predicate EndsSame(text: string, part: string) {
    exists i | 0 <= i <= |text| :: SameText(text[i..], part)
  }

  predicate ContainsText(text: string, part: string) {
    exists i | 0 <= i <= |text| :: StartsSame(text[i..], part)
  }

  // Letter by letter, the part stands at this place.
  ghost predicate StandsAt(text: string, part: string, i: int) {
    0 <= i <= |text| - |part| && forall k | 0 <= k < |part| :: SameLetter(text[i + k], part[k])
  }

  lemma ContainsMeans(text: string, part: string)
    ensures ContainsText(text, part) <==> exists i :: StandsAt(text, part, i)
  {
    forall i | 0 <= i <= |text|
      ensures StartsSame(text[i..], part) <==> StandsAt(text, part, i)
    {
      if |part| <= |text| - i {
        LowerMeans(text[i..][..|part|], part);
        assert forall k | 0 <= k < |part| :: text[i..][..|part|][k] == text[i + k];
      }
    }
  }

  predicate Matches(t: string, text: string) {
    match Read(t)
    case None => false
    case Some(p) =>
      if p.start && p.end then SameText(text, p.literal)
      else if p.start then StartsSame(text, p.literal)
      else if p.end then EndsSame(text, p.literal)
      else ContainsText(text, p.literal)
  }

  // ---------- what is written reads back ----------

  lemma {:induction false} ReadEscaped(s: string, tail: string)
    requires tail == "" || tail == "$"
    ensures ReadLiterals(Escape(s) + tail) == Some(Pattern(false, s, tail == "$"))
  {
    if s == [] {
      assert Escape(s) + tail == tail;
    } else {
      ReadEscaped(s[1..], tail);
      ReadOne(s[0], Escape(s[1..]) + tail, s[1..], tail == "$");
      assert Escape(s) + tail == (if s[0] in OPERATORS then ['\\', s[0]] else [s[0]]) + (Escape(s[1..]) + tail);
      assert [s[0]] + s[1..] == s;
    }
  }

  lemma ReadOne(c: char, rest: string, s: string, end: bool)
    requires ReadLiterals(rest) == Some(Pattern(false, s, end))
    ensures ReadLiterals((if c in OPERATORS then ['\\', c] else [c]) + rest) == Some(Pattern(false, [c] + s, end))
  {
    var t := (if c in OPERATORS then ['\\', c] else [c]) + rest;
    assert '$' in OPERATORS && '\\' in OPERATORS by {
      assert OPERATORS[5] == '$' && OPERATORS[13] == '\\';
    }
    if c in OPERATORS {
      assert t[2..] == rest;
    } else {
      assert t[0] == c && t[1..] == rest && t != [] && c != '$' && c != '\\';
      assert t != "$";
    }
  }

  // Between anchors, the pattern matches exactly the user's text, whatever characters it has.
  lemma AnchoredMatches(s: string, text: string)
    ensures Matches(Anchored(s), text) <==> SameText(text, s)
  {
    ReadEscaped(s, "$");
    assert Anchored(s)[1..] == Escape(s) + "$";
  }

  // Alone, it matches exactly the texts that contain the user's.
  lemma EscapedMatches(s: string, text: string)
    ensures Matches(Escape(s), text) <==> ContainsText(text, s)
  {
    ReadEscaped(s, "");
    assert Escape(s) + "" == Escape(s);
    assert '^' in OPERATORS by { assert OPERATORS[4] == '^'; }
  }

  // A backslash is put before these characters and no others, wherever they are.
  lemma EscapesExactly(c: char)
    ensures Escape([c]) ==
            if || c == '.' || c == '*' || c == '+' || c == '?' || c == '^' || c == '$' || c == '{' || c == '}' || c == '('
               || c == ')' || c == '|' || c == '[' || c == ']' || c == '\\'
            then ['\\', c] else [c]
  {
    var o := OPERATORS;
    assert o[0] == '.' && o[1] == '*' && o[2] == '+' && o[3] == '?' && o[4] == '^' && o[5] == '$' && o[6] == '{'
        && o[7] == '}' && o[8] == '(' && o[9] == ')' && o[10] == '|' && o[11] == '[' && o[12] == ']' && o[13] == '\\';
    assert Escape([c][1..]) == [];
  }

  lemma {:induction false} EscapeAppend(a: string, b: string)
    ensures Escape(a + b) == Escape(a) + Escape(b)
  {
    if a == [] {
      assert a + b == b;
    } else {
      assert (a + b)[1..] == a[1..] + b;
      EscapeAppend(a[1..], b);
    }
  }

  // With the first anchor alone, it matches the texts that begin with the user's.
  lemma StartMatches(s: string, text: string)
    ensures Matches("^" + Escape(s), text) <==> StandsAt(text, s, 0)
  {
    ReadEscaped(s, "");
    assert Escape(s) + "" == Escape(s) && ("^" + Escape(s))[1..] == Escape(s);
    StartsMeans(text, s);
    hide Escape, ReadLiterals, Lower, StandsAt, StartsSame;
  }

  // With the last one alone, those that end with it.
  lemma EndMatches(s: string, text: string)
    ensures Matches(Escape(s) + "$", text) <==> StandsAt(text, s, |text| - |s|)
  {
    ReadEnd(s);
    hide Read, Escape, ReadLiterals, StandsAt, SameText, StartsSame, EndsSame, ContainsText;
    EndsMeans(text, s);
  }

  lemma StartsMeans(text: string, s: string)
    ensures StartsSame(text, s) <==> StandsAt(text, s, 0)
  {
    if |s| <= |text| {
      LowerMeans(text[..|s|], s);
    }
  }

  lemma EndsMeans(text: string, s: string)
    ensures EndsSame(text, s) <==> StandsAt(text, s, |text| - |s|)
  {
    if |s| <= |text| {
      var k := |text| - |s|;
      LowerMeans(text[k..], s);
      assert SameText(text[k..], s) <==> StandsAt(text, s, k);
    }
    if i :| 0 <= i <= |text| && SameText(text[i..], s) {
      assert |Lower(text[i..])| == |text| - i && |Lower(s)| == |s|;
    }
  }

  // A pattern that is not understood matches nothing.
  lemma UnreadMatchesNothing(t: string, text: string)
    requires Read(t) == None
    ensures !Matches(t, text)
  {
  }

  lemma ReadEnd(s: string)
    ensures Read(Escape(s) + "$") == Some(Pattern(false, s, true))
  {
    ReadEscaped(s, "$");
    NoCaret(s);
    hide Escape, ReadLiterals;
  }

  lemma NoCaret(s: string)
    ensures Escape(s) + "$" != "" && (Escape(s) + "$")[0] != '^'
  {
    assert OPERATORS[4] == '^';
  }
}
