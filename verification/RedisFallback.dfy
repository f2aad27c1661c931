/**
 The in-memory stand-in for Redis of backend/config/redis.js: one flat map of strings that encodes
 strings and counters directly, hashes as one entry per field under `key:field`, and lists as JSON
 text.  It is compared with a store whose keys hold typed values, as Redis has them.
 */
module RedisFallback {
  import opened Wrappers
  import opened JsonList
  import opened Text

  // ---------- numbers as text ----------

  function Digit(d: nat): char
    requires d < 10
  {
    '0' + d as char
  }

  function NatText(n: nat): (r: string)
    ensures |r| > 0
  {
    if n < 10 then [Digit(n)] else NatText(n / 10) + [Digit(n % 10)]
  }

  // String(n)
  function IntText(n: int): string {
    if n < 0 then "-" + NatText(-n) else NatText(n)
  }

  predicate IsDigit(c: char) { '0' <= c <= '9' }

  // The number written by the longest prefix of digits.
  function ReadDigits(t: string, soFar: nat): nat {
    if t == [] || !IsDigit(t[0]) then soFar else ReadDigits(t[1..], soFar * 10 + (t[0] - '0') as nat)
  }

  // parseInt(t, 10) || 0
  function ParseInt(t: string): int {
    if t == [] then 0
    else if IsBlank(t[0]) then ParseInt(t[1..])
    else if t[0] == '-' then var n: int := ReadDigits(t[1..], 0); -n
    else if t[0] == '+' then ReadDigits(t[1..], 0)
    else ReadDigits(t, 0)
  }

  lemma {:induction false} ReadDigitsAppend(t: string, d: nat, soFar: nat)
    requires d < 10 && forall i | 0 <= i < |t| :: IsDigit(t[i])
    ensures ReadDigits(t + [Digit(d)], soFar) == ReadDigits(t, soFar) * 10 + d
  {
    if t == [] {
      assert ReadDigits([Digit(d)], soFar) == ReadDigits([Digit(d)][1..], soFar * 10 + d);
    } else {
      assert (t + [Digit(d)])[1..] == t[1..] + [Digit(d)];
      ReadDigitsAppend(t[1..], d, soFar * 10 + (t[0] - '0') as nat);
    }
  }

  lemma {:induction false} NatTextInverse(n: nat)
    ensures ReadDigits(NatText(n), 0) == n && forall i | 0 <= i < |NatText(n)| :: IsDigit(NatText(n)[i])
  {
    if n < 10 {
      ReadDigitsAppend([], n, 0);
      assert [] + [Digit(n)] == [Digit(n)];
    } else {
      NatTextInverse(n / 10);
      ReadDigitsAppend(NatText(n / 10), n % 10, 0);
    }
  }

  lemma ParseIntInverse(n: int)
    ensures ParseInt(IntText(n)) == n
  {
    if n < 0 {
      NatTextInverse(-n);
      assert IntText(n)[1..] == NatText(-n);
    } else {
      NatTextInverse(n);
      assert IsDigit(NatText(n)[0]);
    }
  }

  // ---------- list ranges ----------

  // Array.prototype.slice(start, end)
  function Slice(items: seq<string>, start: int, end: int): seq<string> {
    var n := |items|;
    var from := if start < 0 then (if n + start < 0 then 0 else n + start) else if start < n then start else n;
    var to := if end < 0 then (if n + end < 0 then 0 else n + end) else if end < n then end else n;
    if from < to then items[from..to] else []
  }

  // LRANGE: both ends are included, negative ends count from the back, ends out of range are clipped.
  function Range(items: seq<string>, start: int, stop: int): seq<string> {
    var n := |items|;
    var first := if start < 0 then start + n else start;
    var last := if stop < 0 then stop + n else stop;
    seq(if first <= last && first < n && last >= 0
        then (if last < n then last else n - 1) - (if first < 0 then 0 else first) + 1 else 0,
        i requires 0 <= i && first <= last && first < n && last >= 0
                   && i <= (if last < n then last else n - 1) - (if first < 0 then 0 else first) =>
          items[(if first < 0 then 0 else first) + i])
  }

  lemma SliceIsRange(items: seq<string>, start: int, stop: int)
    ensures Slice(items, start, if stop == -1 then |items| else stop + 1) == Range(items, start, stop)
  {
  }

  // ---------- operations ----------

  datatype Op =
    | Get(key: string)
    | Set(key: string, text: string)
    | Del(key: string)
    | Incr(key: string)
    | Decr(key: string)
    | HGet(key: string, field: string)
    | HSet(key: string, field: string, text: string)
    | HGetAll(key: string)
    | LPush(key: string, text: string)
    | RPop(key: string)
    | LRange(key: string, start: int, stop: int)

  datatype Reply =
    | Ok
    | Text(text: Option<string>)
    | Count(n: int)
    | Fields(fields: map<string, string>)
    | Items(items: seq<string>)
    | Failed

  // ---------- the flat store ----------

  type Flat = map<string, string>

  function Lookup(m: Flat, key: string): Option<string> {
    if key in m then Some(m[key]) else None
  }

  // map.get(key) || other: an empty string counts as absent.
  function Truthy(m: Flat, key: string, other: string): string {
    if key in m && m[key] != "" then m[key] else other
  }

  function FieldKey(key: string, field: string): string { key + ":" + field }

  // Text that starts with key and a colon.
  predicate Extends(key: string, x: string) { key + ":" <= x }

  lemma FieldOf(key: string, x: string)
    ensures Extends(key, x) <==> exists f :: x == FieldKey(key, f)
    ensures Extends(key, x) ==> x == FieldKey(key, x[|key| + 1..])
  {
    if Extends(key, x) {
      assert x == (key + ":") + x[|key| + 1..];
      assert x == FieldKey(key, x[|key| + 1..]);
    }
    forall f | x == FieldKey(key, f)
      ensures Extends(key, x)
    {
      assert key + ":" <= (key + ":") + f;
    }
  }

  lemma FieldKeyInjective(key: string, f: string, g: string)
    requires FieldKey(key, f) == FieldKey(key, g)
    ensures f == g
  {
    assert f == FieldKey(key, f)[|key| + 1..];
    assert g == FieldKey(key, g)[|key| + 1..];
  }

  // The part of the map that hgetall(key) reports.
  ghost predicate AreFieldsUnder(m: Flat, key: string, out: map<string, string>) {
    && (forall f :: f in out <==> FieldKey(key, f) in m)
    && (forall f | f in out :: out[f] == m[FieldKey(key, f)])
  }

  class InMemoryFallback {
    var store: Flat

    constructor ()
      ensures store == map[]
    {
      store := map[];
    }

    method Get(key: string) returns (r: Option<string>)
      ensures r == Lookup(store, key)
    {
      r := if key in store then Some(store[key]) else None;
    }

    method Set(key: string, value: string)
      modifies this
      ensures store == old(store)[key := value]
    {
      store := store[key := value];
    }

    method Del(key: string) returns (n: int)
      modifies this
      ensures store == old(store) - {key}
      ensures n == if key in old(store) then 1 else 0
    {
      n := if key in store then 1 else 0;
      store := store - {key};
    }

    method Incr(key: string) returns (n: int)
      modifies this
      ensures n == ParseInt(Truthy(old(store), key, "0")) + 1
      ensures store == old(store)[key := IntText(n)]
    {
      n := ParseInt(Truthy(store, key, "0")) + 1;
      store := store[key := IntText(n)];
    }

    method Decr(key: string) returns (n: int)
      modifies this
      ensures n == ParseInt(Truthy(old(store), key, "0")) - 1
      ensures store == old(store)[key := IntText(n)]
    {
      n := ParseInt(Truthy(store, key, "0")) - 1;
      store := store[key := IntText(n)];
    }

    method HGet(key: string, field: string) returns (r: Option<string>)
      ensures r == Lookup(store, FieldKey(key, field))
    {
      var k := key + ":" + field;
      r := if k in store then Some(store[k]) else None;
    }

    method HSet(key: string, field: string, value: string) returns (n: int)
      modifies this
      ensures store == old(store)[FieldKey(key, field) := value] && n == 1
    {
      store := store[key + ":" + field := value];
      n := 1;
    }

    method HGetAll(key: string) returns (out: map<string, string>)
      ensures AreFieldsUnder(store, key, out)
    {
      out := map[];
      var keys := store.Keys;
      while keys != {}
        invariant keys <= store.Keys
        invariant forall f :: f in out <==> FieldKey(key, f) in store.Keys - keys
        invariant forall f | f in out :: out[f] == store[FieldKey(key, f)]
        decreases keys
      {
        var k :| k in keys;
        FieldOf(key, k);
        if key + ":" <= k {
          ghost var field := k[|key| + 1..];
          forall f ensures FieldKey(key, f) == k <==> f == field {
            if FieldKey(key, f) == k {
              FieldKeyInjective(key, f, field);
            }
          }
          out := out[k[|key| + 1..] := store[k]];
        }
        keys := keys - {k};
      }
    }

    // None when JSON.parse throws.
    method LPush(key: string, value: string) returns (r: Option<int>)
      modifies this
      ensures match Parse(Truthy(old(store), key, "[]"))
        case None => r == None && store == old(store)
        case Some(items) => r == Some(|items| + 1) && store == old(store)[key := Stringify([value] + items)]
    {
      var list := Parse(Truthy(store, key, "[]"));
      if list.None? {
        return None;
      }
      var items := [value] + list.value;
      store := store[key := Stringify(items)];
      r := Some(|items|);
    }

    method RPop(key: string) returns (r: Option<Option<string>>)
      modifies this
      ensures match Parse(Truthy(old(store), key, "[]"))
        case None => r == None && store == old(store)
        case Some(items) =>
          var rest := if items == [] then [] else items[..|items| - 1];
          && r == Some(if items == [] then None else Some(items[|items| - 1]))
          && store == old(store)[key := Stringify(rest)]
    {
      var list := Parse(Truthy(store, key, "[]"));
      if list.None? {
        return None;
      }
      var items := list.value;
      var v: Option<string> := None;
      if |items| > 0 {
        v := Some(items[|items| - 1]);
        items := items[..|items| - 1];
      }
      store := store[key := Stringify(items)];
      r := Some(v);
    }

    method LRange(key: string, start: int, stop: int) returns (r: Option<seq<string>>)
      ensures match Parse(Truthy(store, key, "[]"))
        case None => r == None
        case Some(items) => r == Some(Slice(items, start, if stop == -1 then |items| else stop + 1))
    {
      var list := Parse(Truthy(store, key, "[]"));
      if list.None? {
        return None;
      }
      var end := if stop == -1 then |list.value| else stop + 1;
      r := Some(Slice(list.value, start, end));
    }
  }

  // ---------- the operations as steps ----------

  function OnList(m: Flat, key: string): Option<seq<string>> { Parse(Truthy(m, key, "[]")) }

  // What the methods above do, as one relation between the map before, the map after, and the reply.
  ghost predicate FlatStep(m: Flat, op: Op, m': Flat, r: Reply) {
    match op
    case Get(k) => m' == m && r == Text(Lookup(m, k))
    case Set(k, v) => m' == m[k := v] && r == Ok
    case Del(k) => m' == m - {k} && r == Count(if k in m then 1 else 0)
    case Incr(k) => var n := ParseInt(Truthy(m, k, "0")) + 1; m' == m[k := IntText(n)] && r == Count(n)
    case Decr(k) => var n := ParseInt(Truthy(m, k, "0")) - 1; m' == m[k := IntText(n)] && r == Count(n)
    case HGet(k, f) => m' == m && r == Text(Lookup(m, FieldKey(k, f)))
    case HSet(k, f, v) => m' == m[FieldKey(k, f) := v] && r == Count(1)
    case HGetAll(k) => m' == m && r.Fields? && AreFieldsUnder(m, k, r.fields)
    case LPush(k, v) =>
      (match OnList(m, k)
       case None => m' == m && r == Failed
       case Some(items) => m' == m[k := Stringify([v] + items)] && r == Count(|items| + 1))
    case RPop(k) =>
      (match OnList(m, k)
       case None => m' == m && r == Failed
       case Some(items) =>
         if items == [] then m' == m[k := Stringify([])] && r == Text(None)
         else m' == m[k := Stringify(items[..|items| - 1])] && r == Text(Some(items[|items| - 1])))
    case LRange(k, a, b) =>
      (match OnList(m, k)
       case None => m' == m && r == Failed
       case Some(items) => m' == m && r == Items(Slice(items, a, if b == -1 then |items| else b + 1)))
  }

  // Any operation, through the adapter's methods.
  method Call(adapter: InMemoryFallback, op: Op) returns (r: Reply)
    modifies adapter
    ensures FlatStep(old(adapter.store), op, adapter.store, r)
  {
    match op
    case Get(k) => var t := adapter.Get(k); r := Text(t);
    case Set(k, v) => adapter.Set(k, v); r := Ok;
    case Del(k) => var n := adapter.Del(k); r := Count(n);
    case Incr(k) => var n := adapter.Incr(k); r := Count(n);
    case Decr(k) => var n := adapter.Decr(k); r := Count(n);
    case HGet(k, f) => var t := adapter.HGet(k, f); r := Text(t);
    case HSet(k, f, v) => var n := adapter.HSet(k, f, v); r := Count(n);
    case HGetAll(k) => var out := adapter.HGetAll(k); r := Fields(out);
    case LPush(k, v) => var n := adapter.LPush(k, v); r := if n.Some? then Count(n.value) else Failed;
    case RPop(k) => var t := adapter.RPop(k); r := if t.Some? then Text(t.value) else Failed;
    case LRange(k, a, b) => var items := adapter.LRange(k, a, b); r := if items.Some? then Items(items.value) else Failed;
  }

  // ---------- the typed store ----------

  datatype Value = Str(text: string) | Hash(fields: map<string, string>) | List(items: seq<string>)
  type Typed = map<string, Value>

  predicate IsNumber(text: string) { text == IntText(ParseInt(text)) }

  function NumberAt(t: Typed, key: string): int {
    if key in t && t[key].Str? then ParseInt(t[key].text) else 0
  }

  function ItemsAt(t: Typed, key: string): seq<string> {
    if key in t && t[key].List? then t[key].items else []
  }

  function FieldsAt(t: Typed, key: string): map<string, string> {
    if key in t && t[key].Hash? then t[key].fields else map[]
  }

  // The operation is meant for what the key holds; `del` only for strings and lists.
  predicate Fits(t: Typed, op: Op) {
    match op
    case Get(k) => k in t ==> t[k].Str?
    case Set(k, _) => k in t ==> !t[k].Hash?
    case Del(k) => k in t ==> !t[k].Hash?
    case Incr(k) => k in t ==> t[k].Str? && IsNumber(t[k].text)
    case Decr(k) => k in t ==> t[k].Str? && IsNumber(t[k].text)
    case HGet(k, _) => k in t ==> t[k].Hash?
    case HSet(k, _, _) => k in t ==> t[k].Hash?
    case HGetAll(k) => k in t ==> t[k].Hash?
    case LPush(k, _) => k in t ==> t[k].List?
    case RPop(k) => k in t ==> t[k].List?
    case LRange(k, _, _) => k in t ==> t[k].List?
  }

  // Redis: a list that has been popped empty is gone.
  function TypedStep(t: Typed, op: Op): (Typed, Reply) {
    match op
    case Get(k) => (t, Text(if k in t && t[k].Str? then Some(t[k].text) else None))
    case Set(k, v) => (t[k := Str(v)], Ok)
    case Del(k) => (t - {k}, Count(if k in t then 1 else 0))
    case Incr(k) => (t[k := Str(IntText(NumberAt(t, k) + 1))], Count(NumberAt(t, k) + 1))
    case Decr(k) => (t[k := Str(IntText(NumberAt(t, k) - 1))], Count(NumberAt(t, k) - 1))
    case HGet(k, f) => (t, Text(Lookup(FieldsAt(t, k), f)))
    case HSet(k, f, v) => (t[k := Hash(FieldsAt(t, k)[f := v])], Count(if f in FieldsAt(t, k) then 0 else 1))
    case HGetAll(k) => (t, Fields(FieldsAt(t, k)))
    case LPush(k, v) => (t[k := List([v] + ItemsAt(t, k))], Count(|ItemsAt(t, k)| + 1))
    case RPop(k) =>
      var items := ItemsAt(t, k);
      if items == [] then (t, Text(None))
      else (if |items| == 1 then t - {k} else t[k := List(items[..|items| - 1])], Text(Some(items[|items| - 1])))
    case LRange(k, a, b) => (t, Items(Range(ItemsAt(t, k), a, b)))
  }

  // What the flat map keeps besides: the keys whose list was popped empty, or popped without being there,
  // still hold the text of an empty list until something is written to them.
  function LeftOver(t: Typed, e: set<string>, op: Op): set<string> {
    match op
    case Set(k, _) => e - {k}
    case Del(k) => e - {k}
    case Incr(k) => e - {k}
    case Decr(k) => e - {k}
    case LPush(k, _) => e - {k}
    case RPop(k) => if |ItemsAt(t, k)| <= 1 then e + {k} else e
    case _ => e
  }

  // The operations whose replies are not Redis's.
  predicate Misreads(t: Typed, e: set<string>, op: Op) {
    ((op.Get? || op.Del?) && op.key in e) || (op.HSet? && op.field in FieldsAt(t, op.key))
  }

  // ---------- refinement ----------

  // x is a key of the flat map because of key k, with that text.
  predicate Entry(t: Typed, e: set<string>, k: string, x: string, text: string) {
    || (k in t
        && match t[k]
           case Str(s) => x == k && text == s
           case List(items) => x == k && text == Stringify(items)
           case Hash(fields) => Extends(k, x) && x[|k| + 1..] in fields && text == fields[x[|k| + 1..]])
    || (k in e && x == k && text == Stringify([]))
  }

  ghost predicate Represents(m: Flat, t: Typed, e: set<string>) {
    && (forall k | k in t :: t[k] != List([]) && (k in e ==> t[k].Hash?))
    && (forall x | x in m :: exists k :: Entry(t, e, k, x, m[x]))
    && (forall k, x, text | Entry(t, e, k, x, text) :: x in m && m[x] == text)
  }

  // No key is another key, a colon and more text.
  predicate Apart(keys: set<string>) {
    forall j, k | j in keys && k in keys && j != k :: !Extends(j, k)
  }

  // x belongs to the key j.
  predicate Under(j: string, x: string) { x == j || Extends(j, x) }

  lemma TwoKeys(j: string, k: string, x: string)
    requires |j| <= |k| && Under(j, x) && Under(k, x)
    ensures j == k || Extends(j, k)
  {
    assert x[..|k|] == k && x[..|j|] == j;
    if |j| < |k| {
      assert x[..|j| + 1] == j + ":" && k[..|j| + 1] == x[..|j| + 1];
    }
  }

  // So entries of different keys never coincide.
  lemma EntriesApart(keys: set<string>, j: string, k: string, x: string)
    requires Apart(keys) && j in keys && k in keys && Under(j, x) && Under(k, x)
    ensures j == k
  {
    if |j| <= |k| {
      TwoKeys(j, k, x);
    } else {
      TwoKeys(k, j, x);
    }
  }

  lemma EntryUnder(t: Typed, e: set<string>, k: string, x: string, text: string)
    requires Entry(t, e, k, x, text)
    ensures k in t.Keys + e && Under(k, x)
  {
  }

  // Replacing what one key holds, when its entries are replaced in the flat map and nothing else is.
  lemma Replace(m: Flat, t: Typed, e: set<string>, k: string, m': Flat, t': Typed, e': set<string>)
    requires Represents(m, t, e) && Apart(t.Keys + e + {k}) && t' - {k} == t - {k} && e' - {k} == e - {k}
    requires k in t' ==> t'[k] != List([]) && (k in e' ==> t'[k].Hash?)
    requires forall x | !Under(k, x) :: (x in m' <==> x in m) && (x in m ==> m'[x] == m[x])
    requires forall x | Under(k, x) && x in m' :: Entry(t', e', k, x, m'[x])
    requires forall x, text | Entry(t', e', k, x, text) :: x in m' && m'[x] == text
    ensures Represents(m', t', e')
  {
    hide Stringify;
    forall x | x in m'
      ensures exists j :: Entry(t', e', j, x, m'[x])
    {
      if Under(k, x) {
        assert Entry(t', e', k, x, m'[x]);
      } else {
        var j :| Entry(t, e, j, x, m[x]);
        assert j != k by { EntryUnder(t, e, j, x, m[x]); }
        SameElsewhere(t, e, t', e', k, j, x, m[x]);
        assert Entry(t', e', j, x, m'[x]);
      }
    }
    forall j, x, text | Entry(t', e', j, x, text)
      ensures x in m' && m'[x] == text
    {
      EntryUnder(t', e', j, x, text);
      if j != k {
        SameElsewhere(t, e, t', e', k, j, x, text);
        assert Entry(t, e, j, x, text);
        if Under(k, x) {
          EntryUnder(t, e, j, x, text);
          EntriesApart(t.Keys + e + {k}, j, k, x);
        }
      }
    }
    forall j | j in t'
      ensures t'[j] != List([]) && (j in e' ==> t'[j].Hash?)
    {
      if j != k {
        assert j in e' ==> j in e' - {k};
        assert j in t' - {k};
        assert t'[j] == (t' - {k})[j] == (t - {k})[j] == t[j];
      }
    }
  }

  lemma SameElsewhere(t: Typed, e: set<string>, t': Typed, e': set<string>, k: string, j: string, x: string, text: string)
    requires t' - {k} == t - {k} && e' - {k} == e - {k} && j != k
    ensures Entry(t', e', j, x, text) <==> Entry(t, e, j, x, text)
  {
    hide Stringify;
    assert j in t <==> j in t - {k};
    assert j in t' <==> j in t' - {k};
    assert j in e <==> j in e - {k};
    assert j in e' <==> j in e' - {k};
    if j in t {
      assert (t - {k})[j] == t[j] && (t' - {k})[j] == t'[j];
    }
  }

  // The flat entry of a key that holds no hash, and no other key's.
  lemma PlainEntry(m: Flat, t: Typed, e: set<string>, k: string)
    requires Represents(m, t, e) && Apart(t.Keys + e + {k}) && (k in t ==> !t[k].Hash?)
    ensures k in m <==> k in t || k in e
    ensures k in t ==> k !in e && t[k] != List([]) && m[k] == if t[k].Str? then t[k].text else Stringify(t[k].items)
    ensures k in e ==> m[k] == Stringify([])
    ensures forall x | x in m && Under(k, x) :: x == k
  {
    hide Stringify;
    if k in t {
      assert Entry(t, e, k, k, if t[k].Str? then t[k].text else Stringify(t[k].items));
    }
    if k in e {
      assert Entry(t, e, k, k, Stringify([]));
    }
    forall x | x in m && Under(k, x)
      ensures x == k && k in t.Keys + e
    {
      var j :| Entry(t, e, j, x, m[x]);
      EntryUnder(t, e, j, x, m[x]);
      EntriesApart(t.Keys + e + {k}, j, k, x);
    }
  }

  // The flat entries that a hash key has.
  lemma HashEntries(m: Flat, t: Typed, e: set<string>, k: string, x: string)
    requires Represents(m, t, e) && Apart(t.Keys + e + {k}) && (k in t ==> t[k].Hash?) && Extends(k, x)
    ensures x in m <==> x[|k| + 1..] in FieldsAt(t, k)
    ensures x in m ==> m[x] == FieldsAt(t, k)[x[|k| + 1..]]
  {
    hide Stringify;
    if x[|k| + 1..] in FieldsAt(t, k) {
      assert Entry(t, e, k, x, FieldsAt(t, k)[x[|k| + 1..]]);
    }
    if x in m {
      var j :| Entry(t, e, j, x, m[x]);
      EntryUnder(t, e, j, x, m[x]);
      EntriesApart(t.Keys + e + {k}, j, k, x);
    }
  }

  // Beside its fields, a hash key may have what an emptied list left there.
  lemma HashResidue(m: Flat, t: Typed, e: set<string>, k: string)
    requires Represents(m, t, e) && Apart(t.Keys + e + {k}) && (k in t ==> t[k].Hash?)
    ensures k in m <==> k in e
    ensures k in m ==> m[k] == Stringify([])
  {
    hide Stringify;
    if k in e {
      assert Entry(t, e, k, k, Stringify([]));
    }
    if k in m {
      var j :| Entry(t, e, j, k, m[k]);
      EntryUnder(t, e, j, k, m[k]);
      EntriesApart(t.Keys + e + {k}, j, k, k);
    }
  }

  lemma ListText(m: Flat, t: Typed, e: set<string>, k: string)
    requires Represents(m, t, e) && Apart(t.Keys + e + {k}) && (k in t ==> t[k].List?)
    ensures OnList(m, k) == Some(ItemsAt(t, k))
  {
    PlainEntry(m, t, e, k);
    RoundTrip(ItemsAt(t, k));
    RoundTrip([]);
  }

  lemma NumberText(m: Flat, t: Typed, e: set<string>, k: string)
    requires Represents(m, t, e) && Apart(t.Keys + e + {k}) && (k in t ==> t[k].Str? && IsNumber(t[k].text))
    ensures ParseInt(Truthy(m, k, "0")) == NumberAt(t, k)
  {
    PlainEntry(m, t, e, k);
    ParseIntInverse(0);
    assert IntText(0) == "0";
    assert Stringify([]) == "[]" && ParseInt("[]") == 0;
  }

  // Storing text under a key that holds no hash.
  lemma Overwrite(m: Flat, t: Typed, e: set<string>, k: string, v: Value)
    requires Represents(m, t, e) && Apart(t.Keys + e + {k}) && (k in t ==> !t[k].Hash?) && !v.Hash? && v != List([])
    ensures Represents(m[k := if v.Str? then v.text else Stringify(v.items)], t[k := v], e - {k})
  {
    hide Stringify, Represents;
    PlainEntry(m, t, e, k);
    Replace(m, t, e, k, m[k := if v.Str? then v.text else Stringify(v.items)], t[k := v], e - {k});
  }

  lemma Empty(m: Flat, t: Typed, e: set<string>, k: string)
    requires Represents(m, t, e) && Apart(t.Keys + e + {k}) && (k in t ==> !t[k].Hash?)
    ensures Represents(m[k := Stringify([])], t - {k}, e + {k})
  {
    hide Stringify, Represents;
    PlainEntry(m, t, e, k);
    Replace(m, t, e, k, m[k := Stringify([])], t - {k}, e + {k});
  }

  lemma Remove(m: Flat, t: Typed, e: set<string>, k: string)
    requires Represents(m, t, e) && Apart(t.Keys + e + {k}) && (k in t ==> !t[k].Hash?)
    ensures Represents(m - {k}, t - {k}, e - {k})
  {
    hide Stringify, Represents;
    PlainEntry(m, t, e, k);
    Replace(m, t, e, k, m - {k}, t - {k}, e - {k});
  }

  lemma StoreField(m: Flat, t: Typed, e: set<string>, k: string, f: string, v: string)
    requires Represents(m, t, e) && Apart(t.Keys + e + {k}) && (k in t ==> t[k].Hash?)
    ensures Represents(m[FieldKey(k, f) := v], t[k := Hash(FieldsAt(t, k)[f := v])], e)
  {
    hide Stringify, Represents;
    var m', t' := m[FieldKey(k, f) := v], t[k := Hash(FieldsAt(t, k)[f := v])];
    HashResidue(m, t, e, k);
    forall x | Under(k, x)
      ensures x in m' ==> Entry(t', e, k, x, m'[x])
      ensures forall text | Entry(t', e, k, x, text) :: x in m' && m'[x] == text
    {
      if Extends(k, x) {
        HashEntries(m, t, e, k, x);
        FieldOf(k, x);
        if x[|k| + 1..] == f {
          assert x == FieldKey(k, f);
        }
        if x == FieldKey(k, f) {
          assert x[|k| + 1..] == f;
        }
      }
    }
    Replace(m, t, e, k, m', t', e);
  }

  lemma ReadFields(m: Flat, t: Typed, e: set<string>, k: string, out: map<string, string>)
    requires Represents(m, t, e) && Apart(t.Keys + e + {k}) && (k in t ==> t[k].Hash?) && AreFieldsUnder(m, k, out)
    ensures out == FieldsAt(t, k)
  {
    hide Represents;
    forall f
      ensures f in out <==> f in FieldsAt(t, k)
      ensures f in out ==> out[f] == FieldsAt(t, k)[f]
    {
      HashEntries(m, t, e, k, FieldKey(k, f));
      assert FieldKey(k, f)[|k| + 1..] == f;
    }
  }

  // One operation: if it fits what its key holds and its key clashes with no other, the flat map goes on
  // representing Redis's store, and the replies agree if and only if it does not misread.
  lemma StepRefines(m: Flat, t: Typed, e: set<string>, op: Op, m': Flat, r: Reply)
    requires Represents(m, t, e) && Fits(t, op) && Apart(t.Keys + e + {op.key}) && FlatStep(m, op, m', r)
    ensures Represents(m', TypedStep(t, op).0, LeftOver(t, e, op))
    ensures r == TypedStep(t, op).1 <==> !Misreads(t, e, op)
    ensures TypedStep(t, op).0.Keys + LeftOver(t, e, op) <= t.Keys + e + {op.key}
  {
    hide Represents, Stringify, IntText, Parse, ParseInt, Slice, Range;
    match op
    case Get(k) => PlainEntry(m, t, e, k);
    case Set(k, v) => Overwrite(m, t, e, k, Str(v));
    case Del(k) => PlainEntry(m, t, e, k); Remove(m, t, e, k);
    case Incr(k) => NumberText(m, t, e, k); Overwrite(m, t, e, k, Str(IntText(NumberAt(t, k) + 1)));
    case Decr(k) => NumberText(m, t, e, k); Overwrite(m, t, e, k, Str(IntText(NumberAt(t, k) - 1)));
    case HGet(k, f) =>
      HashEntries(m, t, e, k, FieldKey(k, f));
      assert FieldKey(k, f)[|k| + 1..] == f;
    case HSet(k, f, v) => StoreField(m, t, e, k, f, v);
    case HGetAll(k) => ReadFields(m, t, e, k, r.fields);
    case LPush(k, v) => ListText(m, t, e, k); Overwrite(m, t, e, k, List([v] + ItemsAt(t, k)));
    case RPop(k) => PopRefines(m, t, e, k, m', r);
    case LRange(k, a, b) => ListText(m, t, e, k); SliceIsRange(ItemsAt(t, k), a, b);
  }

  lemma PopRefines(m: Flat, t: Typed, e: set<string>, k: string, m': Flat, r: Reply)
    requires Represents(m, t, e) && Fits(t, RPop(k)) && Apart(t.Keys + e + {k}) && FlatStep(m, RPop(k), m', r)
    ensures Represents(m', TypedStep(t, RPop(k)).0, LeftOver(t, e, RPop(k))) && r == TypedStep(t, RPop(k)).1
  {
    hide Represents, Stringify, Parse;
    ListText(m, t, e, k);
    PlainEntry(m, t, e, k);
    var items := ItemsAt(t, k);
    if |items| <= 1 {
      Empty(m, t, e, k);
      assert |items| == 1 ==> items[..|items| - 1] == [];
      assert items == [] ==> t - {k} == t;
    } else {
      Overwrite(m, t, e, k, List(items[..|items| - 1]));
      assert e - {k} == e;
    }
  }

  // ---------- runs ----------

  function TypedAfter(t: Typed, ops: seq<Op>): Typed
    decreases |ops|
  {
    if ops == [] then t else TypedAfter(TypedStep(t, ops[0]).0, ops[1..])
  }

  function LeftOverAfter(t: Typed, e: set<string>, ops: seq<Op>): set<string>
    decreases |ops|
  {
    if ops == [] then e else LeftOverAfter(TypedStep(t, ops[0]).0, LeftOver(t, e, ops[0]), ops[1..])
  }

  function TypedReplies(t: Typed, ops: seq<Op>): (rs: seq<Reply>)
    ensures |rs| == |ops|
    decreases |ops|
  {
    if ops == [] then [] else [TypedStep(t, ops[0]).1] + TypedReplies(TypedStep(t, ops[0]).0, ops[1..])
  }

  // Every operation fits what its key holds, and its key is apart from the live ones and the left-over ones.
  predicate Disciplined(t: Typed, e: set<string>, ops: seq<Op>)
    decreases |ops|
  {
    ops != [] ==>
      && Fits(t, ops[0]) && Apart(t.Keys + e + {ops[0].key})
      && Disciplined(TypedStep(t, ops[0]).0, LeftOver(t, e, ops[0]), ops[1..])
  }

  // No operation asks for or deletes a key whose list has been emptied, or sets a field again.
  predicate NeverMisreads(t: Typed, e: set<string>, ops: seq<Op>)
    decreases |ops|
  {
    ops != [] ==>
      !Misreads(t, e, ops[0]) && NeverMisreads(TypedStep(t, ops[0]).0, LeftOver(t, e, ops[0]), ops[1..])
  }

  // ms are the flat maps before, between and after the operations, rs the replies.
  ghost predicate FlatRun(ms: seq<Flat>, ops: seq<Op>, rs: seq<Reply>) {
    && |ms| == |ops| + 1 && |rs| == |ops|
    && forall i | 0 <= i < |ops| :: FlatStep(ms[i], ops[i], ms[i + 1], rs[i])
  }

  // After any disciplined sequence of operations the flat map represents what Redis would hold, and the
  // replies are Redis's if and only if none of the operations misreads.
  lemma {:induction false} RunRefines(ms: seq<Flat>, t: Typed, e: set<string>, ops: seq<Op>, rs: seq<Reply>)
    requires FlatRun(ms, ops, rs) && Represents(ms[0], t, e) && Disciplined(t, e, ops)
    ensures Represents(ms[|ops|], TypedAfter(t, ops), LeftOverAfter(t, e, ops))
    ensures rs == TypedReplies(t, ops) <==> NeverMisreads(t, e, ops)
    decreases |ops|
  {
    hide Represents, FlatStep, TypedStep, Fits, Apart, LeftOver, Misreads;
    if ops != [] {
      StepRefines(ms[0], t, e, ops[0], ms[1], rs[0]);
      var t', e' := TypedStep(t, ops[0]).0, LeftOver(t, e, ops[0]);
      RunRefines(ms[1..], t', e', ops[1..], rs[1..]);
      assert rs == [rs[0]] + rs[1..];
      assert TypedReplies(t, ops)[0] == TypedStep(t, ops[0]).1 && TypedReplies(t, ops)[1..] == TypedReplies(t', ops[1..]);
    }
  }

  // ---------- lists are queues ----------

  function Reverse(items: seq<string>): seq<string> {
    if items == [] then [] else Reverse(items[1..]) + [items[0]]
  }

  lemma {:induction false} ReverseLast(items: seq<string>)
    requires items != []
    ensures Reverse(items) == [items[|items| - 1]] + Reverse(items[..|items| - 1])
  {
    if |items| > 1 {
      ReverseLast(items[1..]);
      assert items[1..][..|items| - 2] == items[..|items| - 1][1..];
    }
  }

  function Pushed(ops: seq<Op>): seq<string> {
    if ops == [] then [] else (if ops[0].LPush? then [ops[0].text] else []) + Pushed(ops[1..])
  }

  function Popped(rs: seq<Reply>): seq<string> {
    if rs == [] then []
    else (if rs[0].Text? && rs[0].text.Some? then [rs[0].text.value] else []) + Popped(rs[1..])
  }

  predicate QueueOps(ops: seq<Op>, key: string) {
    forall i | 0 <= i < |ops| :: (ops[i].LPush? || ops[i].RPop?) && ops[i].key == key
  }

  lemma Regroup(a: seq<string>, b: seq<string>, c: seq<string>)
    ensures (a + b) + c == a + (b + c)
  {
  }

  lemma OneQueueOp(t: Typed, key: string, op: Op)
    requires QueueOps([op], key) && (key in t ==> t[key].List?)
    ensures var (t', r) := TypedStep(t, op);
      && (key in t' ==> t'[key].List?)
      && Reverse(ItemsAt(t, key)) + Pushed([op]) == Popped([r]) + Reverse(ItemsAt(t', key))
  {
    assert op == [op][0];
    var items := ItemsAt(t, key);
    if op.LPush? {
      assert ([op.text] + items)[1..] == items;
      assert Reverse([op.text] + items) == Reverse(items) + [op.text];
      assert Pushed([op]) == [op.text];
    } else if items != [] {
      ReverseLast(items);
      assert |items| == 1 ==> items[..0] == [];
    }
  }

  lemma PushedSplit(ops: seq<Op>)
    requires ops != []
    ensures Pushed(ops) == Pushed([ops[0]]) + Pushed(ops[1..])
  {
    assert [ops[0]][1..] == [];
  }

  lemma PoppedSplit(t: Typed, ops: seq<Op>)
    requires ops != []
    ensures var (t', r) := TypedStep(t, ops[0]);
      Popped(TypedReplies(t, ops)) == Popped([r]) + Popped(TypedReplies(t', ops[1..]))
  {
    hide TypedStep;
    var (t', r) := TypedStep(t, ops[0]);
    assert TypedReplies(t, ops) == [r] + TypedReplies(t', ops[1..]);
    assert ([r] + TypedReplies(t', ops[1..]))[1..] == TypedReplies(t', ops[1..]);
    assert [r][1..] == [];
  }

  // First in, first out: what was in the list and what is pushed comes out in that order, and what has
  // not come out yet is in the list.
  lemma {:induction false} TypedQueue(t: Typed, key: string, ops: seq<Op>)
    requires QueueOps(ops, key) && (key in t ==> t[key].List?)
    ensures Reverse(ItemsAt(t, key)) + Pushed(ops)
         == Popped(TypedReplies(t, ops)) + Reverse(ItemsAt(TypedAfter(t, ops), key))
    decreases |ops|
  {
    hide TypedStep, Reverse, ItemsAt, Pushed, Popped, TypedReplies;
    if ops == [] {
      NothingQueued(t);
    } else {
      var (t', r) := TypedStep(t, ops[0]);
      OneQueueOp(t, key, ops[0]);
      TypedQueue(t', key, ops[1..]);
      PushedSplit(ops);
      PoppedSplit(t, ops);
      var before, now, after := Reverse(ItemsAt(t, key)), Reverse(ItemsAt(t', key)), Reverse(ItemsAt(TypedAfter(t, ops), key));
      Regroup(before, Pushed([ops[0]]), Pushed(ops[1..]));
      Regroup(Popped([r]), now, Pushed(ops[1..]));
      Regroup(Popped([r]), Popped(TypedReplies(t', ops[1..])), after);
    }
  }

  lemma NothingQueued(t: Typed)
    ensures Pushed([]) == [] && Popped(TypedReplies(t, [])) == []
  {
  }

  // The same of the flat map, whose replies here are Redis's.
  lemma FlatQueue(ms: seq<Flat>, t: Typed, e: set<string>, key: string, ops: seq<Op>, rs: seq<Reply>)
    requires FlatRun(ms, ops, rs) && Represents(ms[0], t, e) && Disciplined(t, e, ops)
    requires QueueOps(ops, key) && (key in t ==> t[key].List?)
    ensures Reverse(ItemsAt(t, key)) + Pushed(ops) == Popped(rs) + Reverse(ItemsAt(TypedAfter(t, ops), key))
    ensures OnList(ms[|ops|], key) == Some(ItemsAt(TypedAfter(t, ops), key)) || ops == []
  {
    hide Represents, FlatStep, Disciplined;
    RunRefines(ms, t, e, ops, rs);
    QueueNeverMisreads(t, e, key, ops);
    TypedQueue(t, key, ops);
    if ops != [] {
      QueueEnds(t, e, key, ops);
      ListText(ms[|ops|], TypedAfter(t, ops), LeftOverAfter(t, e, ops), key);
    }
  }

  lemma {:induction false} QueueNeverMisreads(t: Typed, e: set<string>, key: string, ops: seq<Op>)
    requires QueueOps(ops, key)
    ensures NeverMisreads(t, e, ops)
    decreases |ops|
  {
    if ops != [] {
      QueueNeverMisreads(TypedStep(t, ops[0]).0, LeftOver(t, e, ops[0]), key, ops[1..]);
    }
  }

  lemma {:induction false} QueueEnds(t: Typed, e: set<string>, key: string, ops: seq<Op>)
    requires QueueOps(ops, key) && Disciplined(t, e, ops) && ops != [] && (key in t ==> t[key].List?)
    ensures var t' := TypedAfter(t, ops);
      (key in t' ==> t'[key].List?) && Apart(t'.Keys + LeftOverAfter(t, e, ops) + {key})
    decreases |ops|
  {
    var t', e' := TypedStep(t, ops[0]).0, LeftOver(t, e, ops[0]);
    assert t'.Keys + e' + {key} <= t.Keys + e + {key};
    assert key in t' ==> t'[key].List?;
    if |ops| > 1 {
      assert QueueOps(ops[1..], key);
      QueueEnds(t', e', key, ops[1..]);
    } else {
      assert ops[1..] == [];
    }
  }

  // ---------- where the encoding shows ----------

  // Why keys must be apart: asking for a hash that does not exist answers as Redis does exactly when
  // no entry of the flat map starts with its key and a colon.
  lemma MissingHashIsExact(m: Flat, key: string, out: map<string, string>)
    requires AreFieldsUnder(m, key, out)
    ensures out == map[] <==> forall x | x in m :: !Extends(key, x)
  {
    forall x | x in m && Extends(key, x)
      ensures out != map[]
    {
      FieldOf(key, x);
      assert x[|key| + 1..] in out;
    }
    if out != map[] {
      var f :| f in out;
      assert FieldKey(key, f) in m && key + ":" <= FieldKey(key, f);
    }
  }

  // Why `del` is for strings and lists: on a hash it leaves every field behind.
  lemma DelLeavesHash(m: Flat, t: Typed, e: set<string>, key: string, m': Flat, r: Reply)
    requires Represents(m, t, e) && Apart(t.Keys + e + {key}) && key in t && t[key].Hash?
    requires FlatStep(m, Del(key), m', r)
    ensures forall f :: Lookup(m', FieldKey(key, f)) == Lookup(m, FieldKey(key, f)) == Lookup(t[key].fields, f)
    ensures r == Count(if key in e then 1 else 0)
  {
    HashResidue(m, t, e, key);
    forall f
      ensures Lookup(m', FieldKey(key, f)) == Lookup(m, FieldKey(key, f)) == Lookup(t[key].fields, f)
    {
      assert FieldKey(key, f)[|key| + 1..] == f && |FieldKey(key, f)| > |key|;
      HashEntries(m, t, e, key, FieldKey(key, f));
    }
  }

  // Why lists must not be read after they were emptied: where Redis has nothing, `get` finds the text of an
  // empty list.
  lemma EmptiedListShows(m: Flat, m1: Flat, m2: Flat, key: string, r1: Reply, r2: Reply)
    requires key !in m && FlatStep(m, RPop(key), m1, r1) && FlatStep(m1, Get(key), m2, r2)
    ensures TypedReplies(map[], [RPop(key), Get(key)]) == [Text(None), Text(None)]
    ensures r1 == Text(None) && r2 == Text(Some("[]"))
  {
    RoundTrip([]);
    assert [RPop(key), Get(key)][1..] == [Get(key)];
  }

  // ---------- texts that are no numbers or lists ----------

  predicate OnTextKey(op: Op) { op.Incr? || op.Decr? || op.LPush? || op.RPop? || op.LRange? }

  lemma EmptyList()
    ensures Parse("[]") == Some([])
  {
    RoundTrip([]);
    assert Stringify([]) == "[]";
  }

  lemma SameWithout(m: Flat, key: string, text: string)
    ensures m[key := text] == (m - {key})[key := text]
  {
  }

  // For counters and lists, an empty text is as good as none.
  lemma EmptyCountsAsMissing(m: Flat, op: Op, m': Flat, r: Reply)
    requires OnTextKey(op) && op.key in m && m[op.key] == ""
    ensures !op.LRange? ==> (FlatStep(m, op, m', r) <==> FlatStep(m - {op.key}, op, m', r))
    ensures op.LRange? ==> (FlatStep(m, op, m, r) <==> FlatStep(m - {op.key}, op, m - {op.key}, r))
  {
    EmptyList();
    hide Parse, Stringify, IntText, ParseInt, Slice;
    match op
    case Incr(k) => SameWithout(m, k, IntText(ParseInt("0") + 1));
    case Decr(k) => SameWithout(m, k, IntText(ParseInt("0") - 1));
    case LPush(k, v) =>
      assert [v] + [] == [v];
      SameWithout(m, k, Stringify([v]));
    case RPop(k) => SameWithout(m, k, Stringify([]));
    case LRange(_, _, _) =>
  }

  // An operation fails exactly if it wants a list and finds a text that is not one, and changes nothing then.
  lemma FailsExactly(m: Flat, op: Op, m': Flat, r: Reply)
    requires FlatStep(m, op, m', r)
    ensures r == Failed <==> && (op.LPush? || op.RPop? || op.LRange?) && op.key in m && m[op.key] != ""
                             && Parse(m[op.key]) == None
    ensures r == Failed ==> m' == m
  {
    EmptyList();
    hide Parse, Stringify, Slice, ParseInt, IntText;
  }

  lemma {:induction false} DigitsStop(t: string, c: char, rest: string, soFar: nat)
    requires c !in "0123456789" && forall i | 0 <= i < |t| :: IsDigit(t[i])
    ensures ReadDigits(t + [c] + rest, soFar) == ReadDigits(t, soFar)
  {
    if t == [] {
      assert t + [c] + rest == [c] + rest;
      NoDigit(c);
    } else {
      assert (t + [c] + rest)[1..] == t[1..] + [c] + rest;
      DigitsStop(t[1..], c, rest, soFar * 10 + (t[0] - '0') as nat);
    }
  }

  lemma NoDigit(c: char)
    ensures IsDigit(c) <==> c in "0123456789"
  {
    var digits := "0123456789";
    assert digits[0] == '0' && digits[1] == '1' && digits[2] == '2' && digits[3] == '3' && digits[4] == '4'
        && digits[5] == '5' && digits[6] == '6' && digits[7] == '7' && digits[8] == '8' && digits[9] == '9';
  }

  // A number is read up to the first character that is no digit; a text that begins with no number is 0.
  lemma NumbersEnd(n: int, c: char, rest: string)
    requires c !in "0123456789"
    ensures ParseInt(IntText(n) + [c] + rest) == n
    ensures !IsBlank(c) && c != '-' && c != '+' ==> ParseInt([c] + rest) == 0
    ensures n >= 0 ==> ParseInt("+" + IntText(n)) == n
    ensures ParseInt("") == 0 && (IsBlank(c) ==> ParseInt([c] + rest) == ParseInt(rest))
  {
    assert ("+" + IntText(n))[1..] == IntText(n);
    ParseIntInverse(n);
    NoDigit(c);
    var t := IntText(n);
    if n < 0 {
      NatTextInverse(-n);
      assert t[1..] == NatText(-n) && (t + [c] + rest)[1..] == NatText(-n) + [c] + rest;
      DigitsStop(NatText(-n), c, rest, 0);
    } else {
      NatTextInverse(n);
      assert IsDigit(t[0]);
      DigitsStop(t, c, rest, 0);
    }
  }
}
