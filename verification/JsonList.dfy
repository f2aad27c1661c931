/** JSON.stringify and JSON.parse on arrays of strings, as far as backend/config/redis.js uses them. */
module JsonList {
  import opened Wrappers

  const HEX := "0123456789abcdef"

  function HexValue(c: char): (r: Option<nat>)
    ensures r.Some? ==> r.value < 16
  {
    if '0' <= c <= '9' then Some((c - '0') as nat)
    else if 'a' <= c <= 'f' then Some((c - 'a') as nat + 10)
    else if 'A' <= c <= 'F' then Some((c - 'A') as nat + 10)
    else None
  }

  function EscapeChar(c: char): string {
    if c == '"' then "\\\""
    else if c == '\\' then "\\\\"
    else if c == 8 as char then "\\b"
    else if c == 12 as char then "\\f"
    else if c == '\n' then "\\n"
    else if c == '\r' then "\\r"
    else if c == '\t' then "\\t"
    else if c < ' ' then "\\u00" + [HEX[c as nat / 16], HEX[c as nat % 16]]
    else [c]
  }

  function Escape(s: string): string {
    if s == [] then [] else EscapeChar(s[0]) + Escape(s[1..])
  }

  function Quote(s: string): string { "\"" + Escape(s) + "\"" }

  // The elements of an array, with the bracket that closes it.
  function Elements(items: seq<string>): string {
    if items == [] then "]"
    else Quote(items[0]) + (if |items| == 1 then "]" else "," + Elements(items[1..]))
  }

  function Stringify(items: seq<string>): string { "[" + Elements(items) }

  // One character of a string literal, and what follows it.
  function ReadChar(t: string): (r: Option<(char, string)>)
    ensures r.Some? ==> |r.value.1| < |t|
  {
    if t == [] || t[0] == '"' || t[0] < ' ' then None
    else if t[0] != '\\' then Some((t[0], t[1..]))
    else if |t| < 2 then None
    else
      match t[1]
      case '"' => Some(('"', t[2..]))
      case '\\' => Some(('\\', t[2..]))
      case '/' => Some(('/', t[2..]))
      case 'b' => Some((8 as char, t[2..]))
      case 'f' => Some((12 as char, t[2..]))
      case 'n' => Some(('\n', t[2..]))
      case 'r' => Some(('\r', t[2..]))
      case 't' => Some(('\t', t[2..]))
      case 'u' => if |t| < 6 then None else ReadHex(t[2], t[3], t[4], t[5], t[6..])
      case _ => None
  }

  function ReadHex(a: char, b: char, c: char, d: char, rest: string): (r: Option<(char, string)>)
    ensures r.Some? ==> r.value.1 == rest
  {
    var (w, x, y, z) := (HexValue(a), HexValue(b), HexValue(c), HexValue(d));
    if w.None? || x.None? || y.None? || z.None? then None
    else
      var code := ((w.value * 16 + x.value) * 16 + y.value) * 16 + z.value;
      if 0xD800 <= code < 0xE000 then None else Some((code as char, rest))
  }

  // The rest of a string literal after its opening quote.
  function ReadString(t: string): (r: Option<(string, string)>)
    ensures r.Some? ==> |r.value.1| < |t|
    decreases |t|
  {
    if t != [] && t[0] == '"' then Some(("", t[1..]))
    else
      match ReadChar(t)
      case None => None
      case Some((c, rest)) =>
        match ReadString(rest)
        case None => None
        case Some((s, rest')) => Some(([c] + s, rest'))
  }

  // Elements up to the closing bracket, with nothing after it.
  function ReadElements(t: string): Option<seq<string>>
    decreases |t|
  {
    if t == [] || t[0] != '"' then None
    else
      match ReadString(t[1..])
      case None => None
      case Some((s, rest)) =>
        if rest == "]" then Some([s])
        else if rest == [] || rest[0] != ',' then None
        else
          match ReadElements(rest[1..])
          case None => None
          case Some(items) => Some([s] + items)
  }

  function Parse(t: string): Option<seq<string>> {
    if t == "[]" then Some([])
    else if t == [] || t[0] != '[' then None
    else ReadElements(t[1..])
  }

  // ---------- the round trip ----------

  lemma ReadCharInverse(c: char, rest: string)
    ensures ReadChar(EscapeChar(c) + rest) == Some((c, rest))
    ensures EscapeChar(c) != [] && EscapeChar(c)[0] != '"'
  {
    if c < ' ' && c != 8 as char && c != 12 as char && c != '\n' && c != '\r' && c != '\t' {
      ReadHexInverse(c, rest);
    } else {
      var t := EscapeChar(c) + rest;
      assert t[|EscapeChar(c)|..] == rest;
      hide ReadHex;
    }
  }

  lemma ReadHexInverse(c: char, rest: string)
    requires c < ' ' && c != 8 as char && c != 12 as char && c != '\n' && c != '\r' && c != '\t'
    ensures ReadChar(EscapeChar(c) + rest) == Some((c, rest))
  {
    var t := EscapeChar(c) + rest;
    HexInverse(c);
    assert t[6..] == rest;
  }

  lemma HexInverse(c: char)
    requires c < ' '
    ensures HexValue(HEX[c as nat / 16]) == Some(c as nat / 16) && HexValue(HEX[c as nat % 16]) == Some(c as nat % 16)
  {
    DigitInverse(c as nat / 16);
    DigitInverse(c as nat % 16);
  }

  lemma DigitInverse(d: nat)
    requires d < 16
    ensures HexValue(HEX[d]) == Some(d)
  {
    if d < 10 {
      assert HEX[d] == ['0', '1', '2', '3', '4', '5', '6', '7', '8', '9'][d];
    } else {
      assert HEX[d] == ['a', 'b', 'c', 'd', 'e', 'f'][d - 10];
    }
  }

  lemma ReadStringStep(t: string, c: char, after: string, s: string, rest: string)
    requires t != [] && t[0] != '"' && ReadChar(t) == Some((c, after)) && ReadString(after) == Some((s, rest))
    ensures ReadString(t) == Some(([c] + s, rest))
  {
  }

  lemma Regroup(a: string, b: string, c: string, d: string)
    ensures (a + b) + c + d == a + (b + c + d)
  {
  }

  lemma {:induction false} ReadStringInverse(s: string, rest: string)
    ensures ReadString(Escape(s) + "\"" + rest) == Some((s, rest))
  {
    if s == [] {
      assert Escape(s) + "\"" + rest == "\"" + rest;
    } else {
      hide ReadString, ReadChar, EscapeChar;
      var after := Escape(s[1..]) + "\"" + rest;
      ReadStringInverse(s[1..], rest);
      ReadCharInverse(s[0], after);
      Regroup(EscapeChar(s[0]), Escape(s[1..]), "\"", rest);
      ReadStringStep(EscapeChar(s[0]) + after, s[0], after, s[1..], rest);
      assert [s[0]] + s[1..] == s;
    }
  }

  lemma ReadLast(t: string, s: string)
    requires t != [] && t[0] == '"' && ReadString(t[1..]) == Some((s, "]"))
    ensures ReadElements(t) == Some([s])
  {
  }

  lemma ReadMore(t: string, s: string, rest: string, items: seq<string>)
    requires t != [] && t[0] == '"' && ReadString(t[1..]) == Some((s, "," + rest))
    requires ReadElements(rest) == Some(items)
    ensures ReadElements(t) == Some([s] + items)
  {
    assert ("," + rest)[1..] == rest;
  }

  function Tail(items: seq<string>): string
    requires items != []
  {
    if |items| == 1 then "]" else "," + Elements(items[1..])
  }

  lemma ElementsHead(items: seq<string>)
    requires items != []
    ensures Elements(items) != [] && Elements(items)[0] == '"'
    ensures Elements(items)[1..] == Escape(items[0]) + "\"" + Tail(items)
  {
    hide Escape;
    assert Elements(items) == Quote(items[0]) + Tail(items);
    QuoteHead(Escape(items[0]), Tail(items));
  }

  lemma QuoteHead(e: string, tail: string)
    ensures var t := ("\"" + e + "\"") + tail;
      t[0] == '"' && t[1..] == e + "\"" + tail
  {
  }

  lemma {:induction false} ReadElementsInverse(items: seq<string>)
    requires items != []
    ensures ReadElements(Elements(items)) == Some(items)
  {
    hide ReadString, ReadElements, Escape, Elements;
    ElementsHead(items);
    ReadStringInverse(items[0], Tail(items));
    if |items| > 1 {
      ReadElementsInverse(items[1..]);
      ReadMore(Elements(items), items[0], Elements(items[1..]), items[1..]);
      assert [items[0]] + items[1..] == items;
    } else {
      ReadLast(Elements(items), items[0]);
      assert [items[0]] == items;
    }
  }

  // What was stringified is read back, whatever the strings contain.
  lemma RoundTrip(items: seq<string>)
    ensures Parse(Stringify(items)) == Some(items)
  {
    if items != [] {
      ReadElementsInverse(items);
      ElementsHead(items);
      assert Stringify(items)[1..] == Elements(items);
      assert Stringify(items)[1] == Elements(items)[0];
    }
  }

  // ---------- escapes ----------

  // Quotation marks, backslashes and control characters are escaped, and nothing else.
  lemma EscapesExactly(c: char)
    ensures EscapeChar(c) == [c] <==> c as int >= 32 && c != '"' && c != '\\'
    ensures EscapeChar(c) != [c] ==> EscapeChar(c)[0] == '\\' && (|EscapeChar(c)| == 2 || |EscapeChar(c)| == 6)
  {
  }

  // A digit of a hexadecimal number.
  predicate DigitIs(c: char, n: nat) {
    n < 16 && (c == "0123456789abcdef"[n] || c == "0123456789ABCDEF"[n])
  }

  lemma DigitValue(c: char)
    ensures HexValue(c).Some? ==> DigitIs(c, HexValue(c).value)
    ensures forall n: nat :: DigitIs(c, n) ==> HexValue(c) == Some(n)
  {
    var small, large := "0123456789abcdef", "0123456789ABCDEF";
    assert forall n | 0 <= n < 10 :: small[n] == '0' + n as char && large[n] == small[n];
    assert forall n | 10 <= n < 16 :: small[n] == 'a' + (n - 10) as char && large[n] == 'A' + (n - 10) as char;
  }

  lemma FourDigits(a: char, b: char, c: char, d: char, w: nat, x: nat, y: nat, z: nat, rest: string)
    requires HexValue(a) == Some(w) && HexValue(b) == Some(x) && HexValue(c) == Some(y) && HexValue(d) == Some(z)
    ensures var code := w * 4096 + x * 256 + y * 16 + z;
      ReadHex(a, b, c, d, rest) == if 0xD800 <= code <= 0xDFFF then None else Some((code as char, rest))
  {
    hide HexValue;
  }

  lemma AfterBackslash(t: string)
    requires |t| >= 6 && t[0] == '\\' && t[1] == 'u'
    ensures ReadChar(t) == ReadHex(t[2], t[3], t[4], t[5], t[6..])
  {
    hide ReadHex;
  }

  // A character written as four such digits is read, small or capital, unless it is half of a pair.
  lemma ReadsUnicode(digits: string, w: nat, x: nat, y: nat, z: nat, rest: string)
    requires |digits| == 4 && DigitIs(digits[0], w) && DigitIs(digits[1], x) && DigitIs(digits[2], y) && DigitIs(digits[3], z)
    ensures var code := w * 4096 + x * 256 + y * 16 + z;
      ReadChar("\\u" + digits + rest) == if 0xD800 <= code <= 0xDFFF then None else Some((code as char, rest))
  {
    DigitValue(digits[0]);
    DigitValue(digits[1]);
    DigitValue(digits[2]);
    DigitValue(digits[3]);
    hide ReadChar, ReadHex, HexValue, DigitIs;
    FourDigits(digits[0], digits[1], digits[2], digits[3], w, x, y, z, rest);
    var t := "\\u" + digits + rest;
    assert t[2..6] == digits && t[6..] == rest;
    AfterBackslash(t);
  }
}
