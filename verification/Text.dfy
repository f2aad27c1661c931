/** Text as the handlers treat it: surrounding blanks and the case of letters do not matter. */
module Text {
  predicate IsBlank(c: char) { c == ' ' || c == '\t' || c == '\n' || c == '\r' || c == 11 as char || c == 12 as char }

  function TrimLeft(s: string): string {
    if s != [] && IsBlank(s[0]) then TrimLeft(s[1..]) else s
  }

  function TrimRight(s: string): string {
    if s != [] && IsBlank(s[|s| - 1]) then TrimRight(s[..|s| - 1]) else s
  }

  function Trim(s: string): string { TrimRight(TrimLeft(s)) }

  function LowerChar(c: char): char { if 'A' <= c <= 'Z' then c - 'A' + 'a' else c }

  function Lower(s: string): (r: string)
    ensures |r| == |s|
  {
    if s == [] then [] else [LowerChar(s[0])] + Lower(s[1..])
  }

  // What a trimmed text looks like.
  predicate Trimmed(s: string) {
    s != [] ==> !IsBlank(s[0]) && !IsBlank(s[|s| - 1])
  }

  lemma {:induction false} TrimRightKeepsHead(s: string)
    requires s != [] ==> !IsBlank(s[0])
    ensures Trimmed(TrimRight(s))
  {
    if s != [] && IsBlank(s[|s| - 1]) {
      TrimRightKeepsHead(s[..|s| - 1]);
    }
  }

  lemma {:induction false} TrimLeftHead(s: string)
    ensures TrimLeft(s) != [] ==> !IsBlank(TrimLeft(s)[0])
  {
    if s != [] && IsBlank(s[0]) {
      TrimLeftHead(s[1..]);
    }
  }

  lemma TrimTrims(s: string)
    ensures Trimmed(Trim(s))
  {
    TrimLeftHead(s);
    TrimRightKeepsHead(TrimLeft(s));
  }

  predicate AllBlank(s: string) {
    forall i | 0 <= i < |s| :: s[i] in " \t\n\r\U{0B}\U{0C}"
  }

  lemma {:induction false} LeftOf(s: string) returns (before: string)
    ensures s == before + TrimLeft(s) && AllBlank(before)
  {
    before := "";
    if s != [] && IsBlank(s[0]) {
      var rest := LeftOf(s[1..]);
      before := [s[0]] + rest;
      assert s == [s[0]] + s[1..];
      BlankChars(s[0]);
    }
  }

  lemma {:induction false} RightOf(s: string) returns (after: string)
    ensures s == TrimRight(s) + after && AllBlank(after)
  {
    after := "";
    if s != [] && IsBlank(s[|s| - 1]) {
      var rest := RightOf(s[..|s| - 1]);
      after := rest + [s[|s| - 1]];
      assert s == s[..|s| - 1] + [s[|s| - 1]];
      BlankChars(s[|s| - 1]);
    }
  }

  lemma BlankChars(c: char)
    ensures IsBlank(c) <==> c in " \t\n\r\U{0B}\U{0C}"
  {
    var blanks := " \t\n\r\U{0B}\U{0C}";
    assert blanks[0] == ' ' && blanks[1] == '\t' && blanks[2] == '\n' && blanks[3] == '\r'
        && blanks[4] == 11 as char && blanks[5] == 12 as char;
  }

  // Trimming takes away blanks at both ends, all of them, and nothing else.
  lemma TrimMeans(s: string) returns (before: string, after: string)
    ensures s == before + Trim(s) + after && AllBlank(before) && AllBlank(after)
    ensures Trim(s) != "" ==> var t := Trim(s); !AllBlank(t[..1]) && !AllBlank(t[|t| - 1..])
  {
    var t := TrimLeft(s);
    before := LeftOf(s);
    after := RightOf(t);
    TrimTrims(s);
    hide AllBlank, TrimLeft, TrimRight, Trimmed;
    assert s == before + t && t == Trim(s) + after;
    Regrouped(before, Trim(s), after);
    if Trim(s) != "" {
      EndsNotBlank(Trim(s));
    }
  }

  lemma Regrouped(a: string, b: string, c: string)
    ensures a + (b + c) == a + b + c
  {
  }

  lemma EndsNotBlank(t: string)
    requires Trimmed(t) && t != ""
    ensures !AllBlank(t[..1]) && !AllBlank(t[|t| - 1..])
  {
    BlankChars(t[0]);
    BlankChars(t[|t| - 1]);
    assert t[..1][0] == t[0] && t[|t| - 1..][0] == t[|t| - 1];
  }

  // The same letter, or the same character.
  ghost predicate SameLetter(c: char, d: char) {
    c == d || exists k | 0 <= k < 26 :: Letters(c, d, k)
  }

  predicate Letters(c: char, d: char, k: int)
    requires 0 <= k < 26
  {
    var small, large := "abcdefghijklmnopqrstuvwxyz"[k], "ABCDEFGHIJKLMNOPQRSTUVWXYZ"[k];
    (c == small && d == large) || (c == large && d == small)
  }

  lemma LowerCharMeans(c: char, d: char)
    ensures LowerChar(c) == LowerChar(d) <==> SameLetter(c, d)
  {
    hide Letters;
    if LowerChar(c) == LowerChar(d) && c != d {
      LettersAre(c, d, LowerChar(c) as int - 'a' as int);
    } else if c != d && SameLetter(c, d) {
      var k :| 0 <= k < 26 && Letters(c, d, k);
      LettersAre(c, d, k);
    }
  }

  lemma LettersAre(c: char, d: char, k: int)
    requires 0 <= k < 26
    ensures Letters(c, d, k)
            <==> || (c == 'a' + k as char && d == 'A' + k as char) || (c == 'A' + k as char && d == 'a' + k as char)
  {
    LetterAt(k);
  }

  lemma LetterAt(k: int)
    requires 0 <= k < 26
    ensures "abcdefghijklmnopqrstuvwxyz"[k] == 'a' + k as char && "ABCDEFGHIJKLMNOPQRSTUVWXYZ"[k] == 'A' + k as char
  {
  }

  // Two texts are equal in small letters if they are character by character the same letters.
  lemma LowerMeans(s: string, t: string)
    ensures Lower(s) == Lower(t) <==> |s| == |t| && forall i | 0 <= i < |s| :: SameLetter(s[i], t[i])
  {
    hide Lower, LowerChar, SameLetter;
    forall i | 0 <= i < |s| && |s| == |t|
      ensures Lower(s)[i] == Lower(t)[i] <==> SameLetter(s[i], t[i])
    {
      LowerAt(s, i);
      LowerAt(t, i);
      LowerCharMeans(s[i], t[i]);
    }
  }

  lemma {:induction false} LowerAt(s: string, i: nat)
    requires i < |s|
    ensures Lower(s)[i] == LowerChar(s[i])
  {
    if i > 0 {
      LowerAt(s[1..], i - 1);
    }
  }

  lemma {:induction false} LowerTwice(s: string)
    ensures Lower(Lower(s)) == Lower(s)
  {
    if s != [] {
      LowerTwice(s[1..]);
      assert Lower(s)[1..] == Lower(s[1..]);
    }
  }

  // s.trim().toLowerCase()
  function Normal(s: string): string { Lower(Trim(s)) }

  lemma NormalTwice(s: string)
    ensures Normal(Normal(s)) == Normal(s)
  {
    var t := Trim(s);
    TrimTrims(s);
    if t != [] {
      LowerAt(t, 0);
      LowerAt(t, |t| - 1);
    }
    assert Trimmed(Lower(t));
    assert Trim(Lower(t)) == Lower(t);
    LowerTwice(t);
  }
}
