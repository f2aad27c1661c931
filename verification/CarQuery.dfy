/**
 The listing query of getCars in backend/controllers/carController.js: request parameters compiled
 step by step to a query in the style of MongoDB, and what that query means.  Absent and empty
 parameters are both the empty string, as the controller tests only for truth.

 What it means depends on the layer that runs it.  The controller is written for MongoDB.  At this commit
 the layer is Supabase: buildWhere of backend/models/_base.js turns the query into PostgREST filters.
 */
module CarQuery {
  import opened Wrappers
  import opened IlikePattern
  import opened SearchPattern
  import opened Text

  // ---------- cars ----------

  datatype Field =
    | Status | Title | Brand | Model | City | BodyType | Fuel | Transmission | Color | Condition | Vin
    | Engine | Drivetrain | Dealer | AuctionStatus
    | Price | Year | Mileage
    | AllowBid | IsPromoted

  datatype Value = S(s: string) | N(n: int) | B(b: bool)

  predicate IsText(f: Field) { !f.Price? && !f.Year? && !f.Mileage? && !f.AllowBid? && !f.IsPromoted? }
  predicate IsNumber(f: Field) { f.Price? || f.Year? || f.Mileage? }

  datatype Car = Car(texts: Field -> string, numbers: Field -> int, allowBid: bool, isPromoted: bool)
  {
    function Get(f: Field): Value {
      if f == AllowBid then B(allowBid)
      else if f == IsPromoted then B(isPromoted)
      else if IsNumber(f) then N(numbers(f))
      else S(texts(f))
    }
  }

  // ---------- parameters ----------

  // Garbage stands for text that Number() turns into NaN.
  datatype Num = Absent | Number(n: int) | Garbage

  function ToNumber(p: Num, other: int): int {
    match p
    case Number(n) => n
    case _ => other
  }

  datatype Params = Params(
    keyword: string, brand: string, model: string, city: string,
    minPrice: Num, maxPrice: Num, yearMin: Num, yearMax: Num, mileageMin: Num, mileageMax: Num,
    body: string, fuel: string, transmission: string, color: string, condition: string,
    vin: string, engine: string, drivetrain: string, dealerType: string,
    category: string, featured: string, auctionStatus: string, sort: string)

  // What the controller looks up: the ids of the dealers and of the individual sellers, and which cars
  // the text index finds for a search text.
  datatype Context = Context(dealers: seq<string>, sellers: seq<string>, finds: (string, Car) -> bool)

  // brand.split(",")
  function Split(s: string): (r: seq<string>)
    ensures r != []
    decreases |s|
  {
    if exists i | 0 <= i < |s| :: s[i] == ',' then
      var i := CommaIn(s);
      [s[..i]] + Split(s[i + 1..])
    else [s]
  }

  function CommaIn(s: string): (i: nat)
    requires exists i | 0 <= i < |s| :: s[i] == ','
    ensures i < |s| && s[i] == ',' && forall j | 0 <= j < i :: s[j] != ','
  {
    if s[0] == ',' then 0 else 1 + CommaIn(s[1..])
  }

  function JoinCommas(parts: seq<string>): string {
    if parts == [] then "" else if |parts| == 1 then parts[0] else parts[0] + "," + JoinCommas(parts[1..])
  }

  // A whole entry of a list with commas: it has none itself, and is between commas or the ends.
  ghost predicate Listed(list: string, x: string) {
    exists before, after :: EntryOf(list, before, x, after)
  }

  predicate EntryOf(list: string, before: string, x: string, after: string) {
    && list == before + x + after && ',' !in x
    && (before != "" ==> before[|before| - 1] == ',') && (after != "" ==> after[0] == ',')
  }

  predicate NoCommas(parts: seq<string>) { forall i | 0 <= i < |parts| :: ',' !in parts[i] }

  lemma FirstPart(first: string, rest: seq<string>)
    requires rest != []
    ensures JoinCommas([first] + rest) == first + "," + JoinCommas(rest)
    ensures ',' !in first && NoCommas(rest) ==> NoCommas([first] + rest)
  {
    assert ([first] + rest)[1..] == rest;
  }

  lemma SplitFirst(s: string, i: nat)
    requires i < |s| && s[i] == ',' && forall j | 0 <= j < i :: s[j] != ','
    ensures Split(s) == [s[..i]] + Split(s[i + 1..])
  {
    assert CommaIn(s) == i;
    hide CommaIn;
  }

  lemma AtComma(s: string, i: nat)
    requires i < |s| && s[i] == ',' && forall j | 0 <= j < i :: s[j] != ','
    ensures s == s[..i] + "," + s[i + 1..] && ',' !in s[..i]
  {
  }

  lemma {:induction false} SplitJoins(s: string)
    ensures JoinCommas(Split(s)) == s && NoCommas(Split(s))
    decreases |s|
  {
    hide JoinCommas, NoCommas, Split;
    if exists i | 0 <= i < |s| :: s[i] == ',' {
      var i := CommaIn(s);
      SplitJoins(s[i + 1..]);
      SplitFirst(s, i);
      AtComma(s, i);
      FirstPart(s[..i], Split(s[i + 1..]));
    } else {
      SplitWhole(s);
    }
  }

  lemma SplitWhole(s: string)
    requires ',' !in s
    ensures Split(s) == [s] && JoinCommas([s]) == s && NoCommas([s])
  {
  }

  // The parts of a list are its entries.
  lemma {:induction false} SplitLists(s: string, x: string)
    ensures x in Split(s) <==> Listed(s, x)
    decreases |s|
  {
    hide Split, Listed;
    if exists i | 0 <= i < |s| :: s[i] == ',' {
      var i := CommaIn(s);
      SplitLists(s[i + 1..], x);
      FirstOrLater(s, i, x);
      SplitFirst(s, i);
    } else {
      SplitWhole(s);
      OnlyEntry(s, x);
    }
  }

  lemma OnlyEntry(s: string, x: string)
    requires ',' !in s
    ensures Listed(s, x) <==> x == s
  {
    if before, after :| EntryOf(s, before, x, after) {
      EntryChars(s, before, x, after);
      assert s == x;
    }
    assert EntryOf(s, "", s, "");
  }

  lemma EntryChars(list: string, before: string, x: string, after: string)
    requires EntryOf(list, before, x, after)
    ensures |list| == |before| + |x| + |after| && x == list[|before|..|before| + |x|]
    ensures before != "" ==> list[|before| - 1] == ','
    ensures after != "" ==> list[|before| + |x|] == ','
    ensures forall j | |before| <= j < |before| + |x| :: list[j] != ','
  {
    forall j | |before| <= j < |before| + |x|
      ensures list[j] != ','
    {
      assert list[j] == x[j - |before|];
    }
  }

  lemma EntryAfter(s: string, i: nat, before: string, x: string, after: string)
    requires i < |s| && s[i] == ',' && forall j | 0 <= j < i :: s[j] != ','
    requires EntryOf(s, before, x, after)
    ensures x == s[..i] || Listed(s[i + 1..], x)
  {
    EntryChars(s, before, x, after);
    if before == "" {
      assert x == s[..i];
    } else {
      assert before[|before| - 1] == s[|before| - 1];
      assert EntryOf(s[i + 1..], before[i + 1..], x, after);
    }
  }

  lemma EntryBefore(s: string, i: nat, before: string, x: string, after: string)
    requires i < |s| && s[i] == ','
    requires EntryOf(s[i + 1..], before, x, after)
    ensures Listed(s, x)
  {
    var longer := s[..i + 1] + before;
    assert s == s[..i + 1] + s[i + 1..];
    assert EntryOf(s, longer, x, after);
  }

  lemma FirstEntry(s: string, i: nat)
    requires i < |s| && s[i] == ',' && forall j | 0 <= j < i :: s[j] != ','
    ensures Listed(s, s[..i])
  {
    assert s == "" + s[..i] + s[i..];
    assert EntryOf(s, "", s[..i], s[i..]);
  }

  lemma FirstOrLater(s: string, i: nat, x: string)
    requires i < |s| && s[i] == ',' && forall j | 0 <= j < i :: s[j] != ','
    ensures Listed(s, x) <==> x == s[..i] || Listed(s[i + 1..], x)
  {
    hide EntryOf;
    FirstEntry(s, i);
    if before, after :| EntryOf(s, before, x, after) {
      EntryAfter(s, i, before, x, after);
    }
    var rest := s[i + 1..];
    if before, after :| EntryOf(rest, before, x, after) {
      EntryBefore(s, i, before, x, after);
    }
  }

  // ---------- queries ----------

  datatype Cond =
    | Is(v: Value)
    | IsNot(v: Value)
    | In(vs: seq<string>)
    | Between(gte: Option<int>, lte: Option<int>)
    | Regex(pattern: string)

  type Fields = map<Field, Cond>

  // The keys $text, $or and $and beside the fields; the entries of $and are all of the form { $or: ... }.
  // byScore says whether the result is sorted by text score.
  datatype Query = Query(fields: Fields, text: Option<string>, anyOf: Option<seq<Fields>>, allOf: Option<seq<seq<Fields>>>,
                         byScore: bool)

  datatype Layer = Mongo | Supabase

  // How a condition is read: as MongoDB does, or as the filter that buildWhere makes of it on a column, or
  // inside `or`.
  datatype Reading = AsMongo | InColumn | InOr

  function OfFields(layer: Layer): Reading { if layer == Mongo then AsMongo else InColumn }
  function OfBranches(layer: Layer): Reading { if layer == Mongo then AsMongo else InOr }

  predicate RegexHolds(rd: Reading, regex: string, text: string) {
    match rd
    case AsMongo => Matches(regex, text)
    case InColumn => Like(ColumnPattern(regex), text)
    case InOr => Like(OrPattern(regex), text)
  }

  predicate Holds(rd: Reading, c: Cond, v: Value) {
    match c
    case Is(w) => v == w
    case IsNot(w) => v != w
    case In(vs) => v.S? && v.s in vs
    case Between(lo, hi) => v.N? && (lo.Some? ==> lo.value <= v.n) && (hi.Some? ==> v.n <= hi.value)
    case Regex(p) => v.S? && RegexHolds(rd, p, v.s)
  }

  ghost predicate HoldAll(rd: Reading, fields: Fields, car: Car) {
    forall f | f in fields :: Holds(rd, fields[f], car.Get(f))
  }

  ghost predicate HoldAny(rd: Reading, branches: seq<Fields>, car: Car) {
    exists i | 0 <= i < |branches| :: HoldAll(rd, branches[i], car)
  }

  // The meaning of a query that does not fail.
  ghost predicate Finds(layer: Layer, q: Query, ctx: Context, car: Car) {
    && HoldAll(OfFields(layer), q.fields, car)
    && (q.text.Some? ==> ctx.finds(q.text.value, car))
    && (q.anyOf.Some? ==> HoldAny(OfBranches(layer), q.anyOf.value, car))
    && (q.allOf.Some? ==> forall i | 0 <= i < |q.allOf.value| :: HoldAny(OfBranches(layer), q.allOf.value[i], car))
  }

  // A closing parenthesis ends an `or` filter early.
  predicate Breaks(text: string) { ')' in text }

  predicate BranchBreaks(c: Cond) { c.Regex? && Breaks(Core(c.pattern, ANCHORS_AND_LIST)) }

  // The queries that Supabase refuses: a filter on `location.city` or `$or`, which are no columns, an order
  // by `score`, which is none either, and an `or` filter that does not parse.
  predicate Refused(q: Query) {
    || City in q.fields || q.allOf.Some? || q.byScore
    || (q.text.Some? && Breaks(q.text.value))
    || (q.anyOf.Some? && exists i | 0 <= i < |q.anyOf.value| ::
          exists f | f in q.anyOf.value[i] :: BranchBreaks(q.anyOf.value[i][f]))
  }

  // ---------- what the user asked for ----------

  predicate AtLeast(p: Num, other: int, n: int) { (p.Number? ==> p.n <= n) && (p.Garbage? ==> other <= n) }
  predicate AtMost(p: Num, other: int, n: int) { (p.Number? ==> n <= p.n) && (p.Garbage? ==> n <= other) }

  // The text is the wanted one, or contains it, if one is wanted; read as the layer reads its patterns.
  predicate Same(rd: Reading, wanted: string, have: string) {
    wanted != "" ==> if rd == AsMongo then SameText(have, wanted) else RegexHolds(rd, Anchored(wanted), have)
  }

  predicate Part(rd: Reading, wanted: string, have: string) {
    if rd == AsMongo then ContainsText(have, wanted) else RegexHolds(rd, Escape(wanted), have)
  }

  predicate KeywordOk(rd: Reading, p: Params, ctx: Context, car: Car) {
    p.keyword != "" ==>
      var k := Trim(p.keyword);
      if |k| >= 3 then ctx.finds(k, car)
      else Part(rd, k, car.texts(Title)) || Part(rd, k, car.texts(Brand))
  }

  predicate NumbersOk(p: Params, car: Car) {
    && AtLeast(p.minPrice, 0, car.numbers(Price)) && AtMost(p.maxPrice, 999999999, car.numbers(Price))
    && AtLeast(p.yearMin, 0, car.numbers(Year)) && AtMost(p.yearMax, 9999, car.numbers(Year))
    && AtLeast(p.mileageMin, 0, car.numbers(Mileage)) && AtMost(p.mileageMax, 9999999, car.numbers(Mileage))
  }

  ghost predicate TextsOk(rd: Reading, p: Params, car: Car) {
    && (p.brand != "" ==> Listed(p.brand, car.texts(Brand)))
    && Same(rd, p.model, car.texts(Model)) && Same(rd, p.city, car.texts(City))
    && Same(rd, p.body, car.texts(BodyType)) && Same(rd, p.fuel, car.texts(Fuel))
    && Same(rd, p.transmission, car.texts(Transmission)) && Same(rd, p.color, car.texts(Color))
    && Same(rd, p.condition, car.texts(Condition))
    && (p.vin != "" ==> Part(rd, p.vin, car.texts(Vin)))
    && Same(rd, p.engine, car.texts(Engine)) && Same(rd, p.drivetrain, car.texts(Drivetrain))
  }

  predicate SellerOk(p: Params, ctx: Context, car: Car) {
    && (p.dealerType == "dealer" ==> car.texts(Dealer) in ctx.dealers)
    && (p.dealerType == "private" ==> car.texts(Dealer) in ctx.sellers)
  }

  predicate CategoryOk(p: Params, car: Car) {
    && (p.category == "auction" ==> car.texts(AuctionStatus) == "live" || car.allowBid)
    && (p.category == "fixed" ==> car.texts(AuctionStatus) != "live" && !car.allowBid)
  }

  // Everything but the category, with texts read as the layer reads them.
  ghost predicate RestOk(layer: Layer, p: Params, ctx: Context, car: Car) {
    && car.texts(Status) == "available"
    && KeywordOk(OfBranches(layer), p, ctx, car) && NumbersOk(p, car) && TextsOk(OfFields(layer), p, car)
    && SellerOk(p, ctx, car)
    && (p.featured == "true" ==> car.isPromoted)
    && (p.auctionStatus != "" ==> car.texts(AuctionStatus) == p.auctionStatus)
  }

  // Every filter that was requested: texts are the same or contained up to case.
  ghost predicate Wanted(p: Params, ctx: Context, car: Car) {
    RestOk(Mongo, p, ctx, car) && CategoryOk(p, car)
  }

  // ---------- one clause per field ----------

  datatype Clause = Clause(field: Field, wanted: bool, cond: Cond)

  function With(fields: Fields, c: Clause): Fields {
    if c.wanted then fields[c.field := c.cond] else fields
  }

  function Fold(clauses: seq<Clause>): Fields {
    if clauses == [] then map[] else With(Fold(clauses[..|clauses| - 1]), clauses[|clauses| - 1])
  }

  predicate ClauseHolds(rd: Reading, c: Clause, car: Car) { c.wanted ==> Holds(rd, c.cond, car.Get(c.field)) }

  predicate DistinctFields(clauses: seq<Clause>) {
    forall i, j | 0 <= i < j < |clauses| :: clauses[i].field != clauses[j].field
  }

  lemma {:induction false} FoldFields(clauses: seq<Clause>, f: Field)
    requires f in Fold(clauses)
    ensures exists i :: 0 <= i < |clauses| && clauses[i].field == f
  {
    var k := |clauses| - 1;
    if clauses[k].field != f {
      FoldFields(clauses[..k], f);
      var i :| 0 <= i < k && clauses[..k][i].field == f;
      assert clauses[i].field == f;
    }
  }

  // Clauses about different fields do not disturb each other.
  lemma {:induction false} FoldHolds(rd: Reading, clauses: seq<Clause>, car: Car)
    requires DistinctFields(clauses)
    ensures HoldAll(rd, Fold(clauses), car) <==> forall i | 0 <= i < |clauses| :: ClauseHolds(rd, clauses[i], car)
  {
    if clauses != [] {
      var k := |clauses| - 1;
      var before, c := clauses[..k], clauses[k];
      FoldHolds(rd, before, car);
      if c.field in Fold(before) {
        FoldFields(before, c.field);
        assert false;
      }
      WithHolds(rd, Fold(before), c, car);
      assert forall i | 0 <= i < k :: before[i] == clauses[i];
    }
  }

  lemma WithHolds(rd: Reading, fields: Fields, c: Clause, car: Car)
    requires c.field !in fields
    ensures HoldAll(rd, With(fields, c), car) <==> HoldAll(rd, fields, car) && ClauseHolds(rd, c, car)
  {
    if c.wanted {
      var r := fields[c.field := c.cond];
      assert c.field in r && r[c.field] == c.cond;
      if HoldAll(rd, r, car) {
        forall g | g in fields
          ensures Holds(rd, fields[g], car.Get(g))
        {
          assert g in r && r[g] == fields[g];
        }
      }
    }
  }

  function Exact(wanted: string): Cond { Regex(Anchored(wanted)) }

  function RangeOf(lo: Num, loDefault: int, hi: Num, hiDefault: int): Cond {
    Between(if lo != Absent then Some(ToNumber(lo, loDefault)) else None,
            if hi != Absent then Some(ToNumber(hi, hiDefault)) else None)
  }

  function Given(lo: Num, hi: Num): bool { lo != Absent || hi != Absent }

  // What the fields of the finished query say.
  function ClauseAt(p: Params, ctx: Context, k: nat): Clause
    requires k < 19
  {
    if k == 0 then Clause(Status, true, Is(S("available")))
    else if k == 1 then Clause(Brand, p.brand != "", In(Split(p.brand)))
    else if k == 2 then Clause(Model, p.model != "", Exact(p.model))
    else if k == 3 then Clause(City, p.city != "", Exact(p.city))
    else if k == 4 then Clause(Price, Given(p.minPrice, p.maxPrice), RangeOf(p.minPrice, 0, p.maxPrice, 999999999))
    else if k == 5 then Clause(Year, Given(p.yearMin, p.yearMax), RangeOf(p.yearMin, 0, p.yearMax, 9999))
    else if k == 6 then Clause(BodyType, p.body != "", Exact(p.body))
    else if k == 7 then Clause(Fuel, p.fuel != "", Exact(p.fuel))
    else if k == 8 then Clause(Transmission, p.transmission != "", Exact(p.transmission))
    else if k == 9 then Clause(Color, p.color != "", Exact(p.color))
    else if k == 10 then Clause(Condition, p.condition != "", Exact(p.condition))
    else if k == 11 then
      Clause(Mileage, Given(p.mileageMin, p.mileageMax), RangeOf(p.mileageMin, 0, p.mileageMax, 9999999))
    else if k == 12 then Clause(Vin, p.vin != "", Regex(Escape(p.vin)))
    else if k == 13 then Clause(Engine, p.engine != "", Exact(p.engine))
    else if k == 14 then Clause(Drivetrain, p.drivetrain != "", Exact(p.drivetrain))
    else if k == 15 then
      Clause(Dealer, p.dealerType == "dealer" || p.dealerType == "private", In(if p.dealerType == "dealer" then ctx.dealers else ctx.sellers))
    else if k == 16 then Clause(AllowBid, p.category == "fixed", IsNot(B(true)))
    else if k == 17 then Clause(IsPromoted, p.featured == "true", Is(B(true)))
    else Clause(AuctionStatus, p.auctionStatus != "" || p.category == "fixed",
                if p.auctionStatus != "" then Is(S(p.auctionStatus)) else IsNot(S("live")))
  }

  function Clauses(p: Params, ctx: Context): (cs: seq<Clause>)
    ensures |cs| == 19 && forall k | 0 <= k < 19 :: cs[k] == ClauseAt(p, ctx, k)
  {
    seq(19, k requires 0 <= k < 19 => ClauseAt(p, ctx, k))
  }

  lemma ApartClauses(p: Params, ctx: Context)
    ensures DistinctFields(Clauses(p, ctx))
  {
    hide Split, Exact, RangeOf, Escape;
  }

  lemma {:induction false} FoldStep(clauses: seq<Clause>, k: nat)
    requires k < |clauses|
    ensures Fold(clauses[..k + 1]) == With(Fold(clauses[..k]), clauses[k])
  {
    assert clauses[..k + 1][..k] == clauses[..k];
  }

  // ---------- the builder ----------

  const AUCTION_BRANCHES: seq<Fields> := [map[AuctionStatus := Is(S("live"))], map[AllowBid := Is(B(true))]]

  function KeywordBranches(k: string): seq<Fields> { [map[Title := Regex(Escape(k))], map[Brand := Regex(Escape(k))]] }

  predicate ShortKeyword(p: Params) { p.keyword != "" && |Trim(p.keyword)| < 3 }

  ghost function Built(p: Params, ctx: Context): Query {
    var auction := p.category == "auction";
    Query(Fold(Clauses(p, ctx)),
          if p.keyword != "" && !ShortKeyword(p) then Some(Trim(p.keyword)) else None,
          if ShortKeyword(p) && !auction then Some(KeywordBranches(Trim(p.keyword)))
          else if !ShortKeyword(p) && auction then Some(AUCTION_BRANCHES) else None,
          if ShortKeyword(p) && auction then Some([KeywordBranches(Trim(p.keyword)), AUCTION_BRANCHES]) else None,
          p.keyword != "" && !ShortKeyword(p) && p.sort == "")
  }

  // A request that looks up the ids of dealers or sellers.
  predicate LooksUp(p: Params) { p.dealerType == "dealer" || p.dealerType == "private" }

  // The filters from brand to year, from body type to condition, and from mileage to seller.
  method AddFirstFilters(p: Params, ctx: Context, fields0: Fields) returns (fields: Fields)
    requires fields0 == Fold(Clauses(p, ctx)[..1])
    ensures fields == Fold(Clauses(p, ctx)[..6])
  {
    hide Fold, Split, Trim, Escape, RangeOf, Exact, Anchored;
    ghost var cs := Clauses(p, ctx);
    fields := fields0;
    if p.brand != "" { fields := fields[Brand := In(Split(p.brand))]; }
    FoldStep(cs, 1);
    assert fields == Fold(cs[..2]);
    if p.model != "" { fields := fields[Model := Exact(p.model)]; }
    FoldStep(cs, 2);
    assert fields == Fold(cs[..3]);
    if p.city != "" { fields := fields[City := Exact(p.city)]; }
    FoldStep(cs, 3);
    assert fields == Fold(cs[..4]);
    if p.minPrice != Absent || p.maxPrice != Absent {
      fields := fields[Price := RangeOf(p.minPrice, 0, p.maxPrice, 999999999)];
    }
    FoldStep(cs, 4);
    assert fields == Fold(cs[..5]);
    if p.yearMin != Absent || p.yearMax != Absent {
      fields := fields[Year := RangeOf(p.yearMin, 0, p.yearMax, 9999)];
    }
    FoldStep(cs, 5);
    assert fields == Fold(cs[..6]);
  }

  method AddLooks(p: Params, ctx: Context, fields0: Fields) returns (fields: Fields)
    requires fields0 == Fold(Clauses(p, ctx)[..6])
    ensures fields == Fold(Clauses(p, ctx)[..11])
  {
    hide Fold, Split, Trim, Escape, RangeOf, Exact, Anchored;
    ghost var cs := Clauses(p, ctx);
    fields := fields0;
    if p.body != "" { fields := fields[BodyType := Exact(p.body)]; }
    FoldStep(cs, 6);
    assert fields == Fold(cs[..7]);
    if p.fuel != "" { fields := fields[Fuel := Exact(p.fuel)]; }
    FoldStep(cs, 7);
    assert fields == Fold(cs[..8]);
    if p.transmission != "" { fields := fields[Transmission := Exact(p.transmission)]; }
    FoldStep(cs, 8);
    assert fields == Fold(cs[..9]);
    if p.color != "" { fields := fields[Color := Exact(p.color)]; }
    FoldStep(cs, 9);
    assert fields == Fold(cs[..10]);
    if p.condition != "" { fields := fields[Condition := Exact(p.condition)]; }
    FoldStep(cs, 10);
    assert fields == Fold(cs[..11]);
  }

  // distinct(...) answers a promise in the Supabase layer, and .lean() of a promise throws.
  method AddLastFilters(layer: Layer, p: Params, ctx: Context, fields0: Fields) returns (r: Option<Fields>)
    requires fields0 == Fold(Clauses(p, ctx)[..11])
    ensures r == if layer == Supabase && LooksUp(p) then None else Some(Fold(Clauses(p, ctx)[..16]))
  {
    hide Fold, Split, Trim, Escape, RangeOf, Exact, Anchored;
    ghost var cs := Clauses(p, ctx);
    var fields := fields0;
    if p.mileageMin != Absent || p.mileageMax != Absent {
      fields := fields[Mileage := RangeOf(p.mileageMin, 0, p.mileageMax, 9999999)];
    }
    FoldStep(cs, 11);
    assert fields == Fold(cs[..12]);
    if p.vin != "" { fields := fields[Vin := Regex(Escape(p.vin))]; }
    FoldStep(cs, 12);
    assert fields == Fold(cs[..13]);
    if p.engine != "" { fields := fields[Engine := Exact(p.engine)]; }
    FoldStep(cs, 13);
    assert fields == Fold(cs[..14]);
    if p.drivetrain != "" { fields := fields[Drivetrain := Exact(p.drivetrain)]; }
    FoldStep(cs, 14);
    assert fields == Fold(cs[..15]);
    if p.dealerType == "dealer" {
      if layer == Supabase {
        return None;
      }
      fields := fields[Dealer := In(ctx.dealers)];
    } else if p.dealerType == "private" {
      if layer == Supabase {
        return None;
      }
      fields := fields[Dealer := In(ctx.sellers)];
    }
    FoldStep(cs, 15);
    assert fields == Fold(cs[..16]);
    r := Some(fields);
  }

  // None when the handler has thrown before there is a query.
  method BuildQuery(layer: Layer, p: Params, ctx: Context) returns (query: Option<Query>)
    ensures query == if layer == Supabase && LooksUp(p) then None else Some(Built(p, ctx))
  {
    hide Fold, Split, Trim, Escape, RangeOf, Exact, Anchored;
    ghost var cs := Clauses(p, ctx);
    var fields: Fields := map[Status := Is(S("available"))];
    var text, anyOf, allOf := None, None, None;
    FoldEmpty(cs);
    FoldStep(cs, 0);
    assert fields == Fold(cs[..1]);

    if p.keyword != "" {
      var trimmed := Trim(p.keyword);
      if |trimmed| >= 3 {
        text := Some(trimmed);
      } else {
        anyOf := Some([map[Title := Regex(Escape(trimmed))], map[Brand := Regex(Escape(trimmed))]]);
      }
    }

    fields := AddFirstFilters(p, ctx, fields);
    fields := AddLooks(p, ctx, fields);
    var added := AddLastFilters(layer, p, ctx, fields);
    if added.None? {
      return None;
    }
    fields := added.value;
    ghost var fields16 := fields;

    if p.category == "auction" {
      var categoryOr: seq<Fields> := [map[AuctionStatus := Is(S("live"))], map[AllowBid := Is(B(true))]];
      if anyOf.Some? {
        allOf := Some([anyOf.value, categoryOr]);
        anyOf := None;
      } else {
        anyOf := Some(categoryOr);
      }
    } else if p.category == "fixed" {
      fields := fields[AuctionStatus := IsNot(S("live"))];
      fields := fields[AllowBid := IsNot(B(true))];
    }
    if p.featured == "true" {
      fields := fields[IsPromoted := Is(B(true))];
    }
    if p.auctionStatus != "" {
      fields := fields[AuctionStatus := Is(S(p.auctionStatus))];
    }
    LastClauses(p, ctx, fields16, fields);
    var byScore := text.Some? && p.sort == "";
    query := Some(Query(fields, text, anyOf, allOf, byScore));
  }

  lemma FoldEmpty(clauses: seq<Clause>)
    ensures Fold(clauses[..0]) == map[]
  {
  }

  // The order of the last assignments does not matter, except that an explicit status comes last.
  lemma LastClauses(p: Params, ctx: Context, before: Fields, after: Fields)
    requires before == Fold(Clauses(p, ctx)[..16])
    requires var f1 := if p.category == "fixed" then before[AuctionStatus := IsNot(S("live"))][AllowBid := IsNot(B(true))] else before;
      var f2 := if p.featured == "true" then f1[IsPromoted := Is(B(true))] else f1;
      after == if p.auctionStatus != "" then f2[AuctionStatus := Is(S(p.auctionStatus))] else f2
    ensures after == Fold(Clauses(p, ctx))
  {
    hide Fold;
    var cs := Clauses(p, ctx);
    FoldStep(cs, 16);
    FoldStep(cs, 17);
    FoldStep(cs, 18);
    assert cs[..19] == cs;
    assert after == With(With(With(before, cs[16]), cs[17]), cs[18]);
  }

  // ---------- what the query means ----------

  lemma ExactHolds(rd: Reading, f: Field, wanted: string, car: Car)
    requires IsText(f)
    ensures ClauseHolds(rd, Clause(f, wanted != "", Exact(wanted)), car) <==> Same(rd, wanted, car.texts(f))
  {
    AnchoredMatches(wanted, car.texts(f));
    hide Matches;
  }

  lemma RangeHolds(rd: Reading, f: Field, lo: Num, loDefault: int, hi: Num, hiDefault: int, car: Car)
    requires IsNumber(f)
    ensures ClauseHolds(rd, Clause(f, Given(lo, hi), RangeOf(lo, loDefault, hi, hiDefault)), car)
            <==> AtLeast(lo, loDefault, car.numbers(f)) && AtMost(hi, hiDefault, car.numbers(f))
  {
  }

  predicate FirstHold(rd: Reading, cs: seq<Clause>, car: Car)
    requires |cs| == 19
  {
    && ClauseHolds(rd, cs[0], car) && ClauseHolds(rd, cs[1], car) && ClauseHolds(rd, cs[2], car) && ClauseHolds(rd, cs[3], car)
    && ClauseHolds(rd, cs[4], car) && ClauseHolds(rd, cs[5], car)
  }

  predicate LooksHold(rd: Reading, cs: seq<Clause>, car: Car)
    requires |cs| == 19
  {
    && ClauseHolds(rd, cs[6], car) && ClauseHolds(rd, cs[7], car) && ClauseHolds(rd, cs[8], car) && ClauseHolds(rd, cs[9], car)
    && ClauseHolds(rd, cs[10], car)
  }

  predicate LastHold(rd: Reading, cs: seq<Clause>, car: Car)
    requires |cs| == 19
  {
    && ClauseHolds(rd, cs[11], car) && ClauseHolds(rd, cs[12], car) && ClauseHolds(rd, cs[13], car) && ClauseHolds(rd, cs[14], car)
    && ClauseHolds(rd, cs[15], car)
  }

  lemma InHolds(rd: Reading, f: Field, wanted: bool, vs: seq<string>, car: Car)
    requires IsText(f)
    ensures ClauseHolds(rd, Clause(f, wanted, In(vs)), car) <==> (wanted ==> car.texts(f) in vs)
  {
  }

  lemma FirstMean(rd: Reading, p: Params, ctx: Context, car: Car)
    ensures FirstHold(rd, Clauses(p, ctx), car)
            <==> && car.texts(Status) == "available"
                 && (p.brand != "" ==> Listed(p.brand, car.texts(Brand)))
                 && Same(rd, p.model, car.texts(Model)) && Same(rd, p.city, car.texts(City))
                 && AtLeast(p.minPrice, 0, car.numbers(Price)) && AtMost(p.maxPrice, 999999999, car.numbers(Price))
                 && AtLeast(p.yearMin, 0, car.numbers(Year)) && AtMost(p.yearMax, 9999, car.numbers(Year))
  {
    assert ClauseHolds(rd, Clause(Status, true, Is(S("available"))), car) <==> car.texts(Status) == "available";
    hide Holds, ClauseHolds, Exact, RangeOf, Escape, Split, Same, AtLeast, AtMost;
    InHolds(rd, Brand, p.brand != "", Split(p.brand), car);
    SplitLists(p.brand, car.texts(Brand));
    ExactHolds(rd, Model, p.model, car);
    ExactHolds(rd, City, p.city, car);
    RangeHolds(rd, Price, p.minPrice, 0, p.maxPrice, 999999999, car);
    RangeHolds(rd, Year, p.yearMin, 0, p.yearMax, 9999, car);
  }

  lemma LooksMean(rd: Reading, p: Params, ctx: Context, car: Car)
    ensures LooksHold(rd, Clauses(p, ctx), car)
            <==> && Same(rd, p.body, car.texts(BodyType)) && Same(rd, p.fuel, car.texts(Fuel))
                 && Same(rd, p.transmission, car.texts(Transmission)) && Same(rd, p.color, car.texts(Color))
                 && Same(rd, p.condition, car.texts(Condition))
  {
    hide Holds, ClauseHolds, Exact, RangeOf, Escape, Split, Same;
    ExactHolds(rd, BodyType, p.body, car);
    ExactHolds(rd, Fuel, p.fuel, car);
    ExactHolds(rd, Transmission, p.transmission, car);
    ExactHolds(rd, Color, p.color, car);
    ExactHolds(rd, Condition, p.condition, car);
  }

  lemma VinHolds(rd: Reading, vin: string, car: Car)
    ensures ClauseHolds(rd, Clause(Vin, vin != "", Regex(Escape(vin))), car) <==> (vin != "" ==> Part(rd, vin, car.texts(Vin)))
  {
    EscapedMatches(vin, car.texts(Vin));
  }

  lemma LastMean(rd: Reading, p: Params, ctx: Context, car: Car)
    ensures LastHold(rd, Clauses(p, ctx), car)
            <==> && AtLeast(p.mileageMin, 0, car.numbers(Mileage)) && AtMost(p.mileageMax, 9999999, car.numbers(Mileage))
                 && (p.vin != "" ==> Part(rd, p.vin, car.texts(Vin)))
                 && Same(rd, p.engine, car.texts(Engine)) && Same(rd, p.drivetrain, car.texts(Drivetrain))
                 && SellerOk(p, ctx, car)
  {
    hide Holds, ClauseHolds, Exact, RangeOf, Escape, Split, Same, AtLeast, AtMost, Part;
    VinHolds(rd, p.vin, car);
    RangeHolds(rd, Mileage, p.mileageMin, 0, p.mileageMax, 9999999, car);
    ExactHolds(rd, Engine, p.engine, car);
    ExactHolds(rd, Drivetrain, p.drivetrain, car);
    InHolds(rd, Dealer, p.dealerType == "dealer" || p.dealerType == "private",
            if p.dealerType == "dealer" then ctx.dealers else ctx.sellers, car);
  }

  lemma AllHold(rd: Reading, cs: seq<Clause>, car: Car)
    requires |cs| == 19
    ensures (forall i | 0 <= i < |cs| :: ClauseHolds(rd, cs[i], car))
            <==> && FirstHold(rd, cs, car) && LooksHold(rd, cs, car) && LastHold(rd, cs, car)
                 && ClauseHolds(rd, cs[16], car) && ClauseHolds(rd, cs[17], car) && ClauseHolds(rd, cs[18], car)
  {
    hide ClauseHolds;
  }

  // The category filter as the query has it: an explicit status replaces the not-live clause.
  predicate CategoryAsBuilt(p: Params, car: Car) {
    && (p.category == "auction" ==> car.texts(AuctionStatus) == "live" || car.allowBid)
    && (p.category == "fixed" ==> !car.allowBid && (p.auctionStatus == "" ==> car.texts(AuctionStatus) != "live"))
  }

  // The last three clauses.
  lemma FlagsMean(rd: Reading, p: Params, ctx: Context, car: Car)
    ensures var cs := Clauses(p, ctx);
      ClauseHolds(rd, cs[16], car) && ClauseHolds(rd, cs[17], car) && ClauseHolds(rd, cs[18], car)
      <==> && (p.category == "fixed" ==> !car.allowBid && (p.auctionStatus == "" ==> car.texts(AuctionStatus) != "live"))
           && (p.featured == "true" ==> car.isPromoted)
           && (p.auctionStatus != "" ==> car.texts(AuctionStatus) == p.auctionStatus)
  {
    hide Split, Escape, Exact, RangeOf, RegexHolds;
  }

  lemma FieldsMean(rd: Reading, p: Params, ctx: Context, car: Car)
    ensures HoldAll(rd, Fold(Clauses(p, ctx)), car)
            <==> && car.texts(Status) == "available" && NumbersOk(p, car) && TextsOk(rd, p, car) && SellerOk(p, ctx, car)
                 && (p.category == "fixed" ==> !car.allowBid && (p.auctionStatus == "" ==> car.texts(AuctionStatus) != "live"))
                 && (p.featured == "true" ==> car.isPromoted)
                 && (p.auctionStatus != "" ==> car.texts(AuctionStatus) == p.auctionStatus)
  {
    hide HoldAll, Fold, FirstHold, LooksHold, LastHold, ClauseHolds, ClauseAt, SellerOk, Split, Escape, Exact, RangeOf,
      Same, AtLeast, AtMost, Part;
    var cs := Clauses(p, ctx);
    ApartClauses(p, ctx);
    FoldHolds(rd, cs, car);
    AllHold(rd, cs, car);
    FirstMean(rd, p, ctx, car);
    LooksMean(rd, p, ctx, car);
    LastMean(rd, p, ctx, car);
    FlagsMean(rd, p, ctx, car);
  }

  lemma OneBranch(rd: Reading, f: Field, c: Cond, car: Car)
    ensures HoldAll(rd, map[f := c], car) <==> Holds(rd, c, car.Get(f))
  {
    assert f in map[f := c];
  }

  lemma TwoBranches(rd: Reading, a: Fields, b: Fields, car: Car)
    ensures HoldAny(rd, [a, b], car) <==> HoldAll(rd, a, car) || HoldAll(rd, b, car)
  {
    hide HoldAll;
    assert [a, b][0] == a && [a, b][1] == b;
  }

  lemma AuctionMeans(rd: Reading, car: Car)
    ensures HoldAny(rd, AUCTION_BRANCHES, car) <==> car.texts(AuctionStatus) == "live" || car.allowBid
  {
    TwoBranches(rd, map[AuctionStatus := Is(S("live"))], map[AllowBid := Is(B(true))], car);
    OneBranch(rd, AuctionStatus, Is(S("live")), car);
    OneBranch(rd, AllowBid, Is(B(true)), car);
  }

  lemma KeywordMeans(rd: Reading, k: string, car: Car)
    ensures HoldAny(rd, KeywordBranches(k), car) <==> Part(rd, k, car.texts(Title)) || Part(rd, k, car.texts(Brand))
  {
    TwoBranches(rd, map[Title := Regex(Escape(k))], map[Brand := Regex(Escape(k))], car);
    OneBranch(rd, Title, Regex(Escape(k)), car);
    OneBranch(rd, Brand, Regex(Escape(k)), car);
    EscapedMatches(k, car.texts(Title));
    EscapedMatches(k, car.texts(Brand));
  }

  lemma Both(rd: Reading, a: seq<Fields>, b: seq<Fields>, car: Car)
    ensures (forall i | 0 <= i < |[a, b]| :: HoldAny(rd, [a, b][i], car)) <==> HoldAny(rd, a, car) && HoldAny(rd, b, car)
  {
    hide HoldAny;
    assert [a, b][0] == a && [a, b][1] == b;
  }

  // What the built query finds, for all parameters and in both layers: everything requested, with the
  // category as built and texts as the layer reads them.
  lemma BuiltFinds(layer: Layer, p: Params, ctx: Context, car: Car)
    ensures Finds(layer, Built(p, ctx), ctx, car) <==> RestOk(layer, p, ctx, car) && CategoryAsBuilt(p, car)
  {
    hide HoldAll, HoldAny, Fold, Clauses, NumbersOk, TextsOk, SellerOk, Trim, Part;
    var fields, branches := OfFields(layer), OfBranches(layer);
    FieldsMean(fields, p, ctx, car);
    AuctionMeans(branches, car);
    KeywordMeans(branches, Trim(p.keyword), car);
    Both(branches, KeywordBranches(Trim(p.keyword)), AUCTION_BRANCHES, car);
  }
}
