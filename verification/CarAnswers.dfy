/**
 When the answer of getCars is the one that was asked for: exactly, for all requests, in both layers.
 */
module CarAnswers {
  import opened Wrappers
  import opened CarQuery
  import opened IlikePattern
  import opened SearchPattern
  import opened Text

  // ---------- failing requests ----------

  // The answer is 500: the lookup of seller ids throws, or the query is refused.
  ghost predicate Fails(layer: Layer, p: Params, ctx: Context) {
    layer == Supabase && (LooksUp(p) || Refused(Built(p, ctx)))
  }

  predicate FailsFor(p: Params) {
    var k := Trim(p.keyword);
    || LooksUp(p) || p.city != ""
    || (p.keyword != "" && |k| >= 3 && p.sort == "")
    || (ShortKeyword(p) && p.category == "auction")
    || (p.keyword != "" && Breaks(k))
  }

  lemma {:induction false} FoldIn(clauses: seq<Clause>, f: Field)
    ensures f in Fold(clauses) <==> exists i :: 0 <= i < |clauses| && clauses[i].field == f && clauses[i].wanted
  {
    if clauses != [] {
      var k := |clauses| - 1;
      FoldIn(clauses[..k], f);
      if i :| 0 <= i < |clauses| && clauses[i].field == f && clauses[i].wanted {
        if i < k {
          assert clauses[..k][i] == clauses[i];
        }
      }
      if i :| 0 <= i < k && clauses[..k][i].field == f && clauses[..k][i].wanted {
        assert clauses[i] == clauses[..k][i];
      }
    }
  }

  lemma CityAsked(p: Params, ctx: Context)
    ensures City in Fold(Clauses(p, ctx)) <==> p.city != ""
  {
    hide Fold, Listed, Exact, RangeOf, Escape;
    var cs := Clauses(p, ctx);
    FoldIn(cs, City);
    assert cs[3].field == City;
    ApartClauses(p, ctx);
  }

  lemma NothingBreaks()
    ensures !Breaks(Core(Escape([]), ANCHORS_AND_LIST))
  {
  }

  lemma EscapeFirst(s: string)
    requires s != []
    ensures Escape(s) == Code(s[0]) + Escape(s[1..])
  {
  }

  lemma {:induction false} CoreBreaks(s: string)
    ensures Breaks(Core(Escape(s), ANCHORS_AND_LIST)) <==> Breaks(s)
  {
    hide Core, Piece, Escape, Code;
    if s == [] {
      NothingBreaks();
    } else {
      var c := s[0];
      CoreBreaks(s[1..]);
      EscapeFirst(s);
      CoreAppend(Code(c), Escape(s[1..]), ANCHORS_AND_LIST);
      CodeCore(c, ANCHORS_AND_LIST);
      PieceBreaks(c);
      assert s == [c] + s[1..];
    }
  }

  lemma PieceBreaks(c: char)
    ensures ')' in Piece(c, ANCHORS_AND_LIST) <==> c == ')'
  {
    assert OPERATORS[9] == ')';
  }

  lemma BranchesBreak(k: string)
    ensures (exists i | 0 <= i < |KeywordBranches(k)| ::
               exists f | f in KeywordBranches(k)[i] :: BranchBreaks(KeywordBranches(k)[i][f]))
            <==> Breaks(k)
  {
    CoreBreaks(k);
    hide Core, Escape;
    var bs := KeywordBranches(k);
    assert |bs| == 2 && bs[0] == map[Title := Regex(Escape(k))] && bs[1] == map[Brand := Regex(Escape(k))];
    assert Title in bs[0] && bs[0][Title] == Regex(Escape(k));
  }

  lemma AuctionBranchesDoNot()
    ensures !exists i | 0 <= i < |AUCTION_BRANCHES| ::
               exists f | f in AUCTION_BRANCHES[i] :: BranchBreaks(AUCTION_BRANCHES[i][f])
  {
  }

  // Exactly which requests fail, whatever cars and sellers there are.
  lemma FailsExactly(p: Params, ctx: Context)
    ensures Fails(Supabase, p, ctx) <==> FailsFor(p)
  {
    hide Fold, Clauses, Trim, BranchBreaks;
    CityAsked(p, ctx);
    BranchesBreak(Trim(p.keyword));
    AuctionBranchesDoNot();
    hide KeywordBranches;
  }

  // ---------- MongoDB ----------

  // A car is found exactly when it meets every requested filter, unless fixed-price cars are requested
  // together with the auction status `live`.  In that case nothing meets the request, and whatever the
  // query finds is a live auction.
  lemma QueryMeansFilters(p: Params, ctx: Context, car: Car)
    ensures !(p.category == "fixed" && p.auctionStatus == "live") ==>
              (Finds(Mongo, Built(p, ctx), ctx, car) <==> Wanted(p, ctx, car))
    ensures p.category == "fixed" && p.auctionStatus == "live" ==>
              && !Wanted(p, ctx, car)
              && (Finds(Mongo, Built(p, ctx), ctx, car) <==> RestOk(Mongo, p, ctx, car) && !car.allowBid)
  {
    BuiltFinds(Mongo, p, ctx, car);
  }

  // ---------- Supabase ----------

  predicate NoExactText(p: Params) {
    && p.model == "" && p.body == "" && p.fuel == "" && p.transmission == "" && p.color == "" && p.condition == ""
    && p.engine == "" && p.drivetrain == ""
  }

  // The short keyword has no character that is stripped, replaced or wild, or else every requested brand
  // contains it and matches its pattern, so that the keyword decides nothing.
  ghost predicate KeywordFits(p: Params) {
    ShortKeyword(p) ==>
      var k := Trim(p.keyword);
      || Plain(k, ANCHORS_AND_LIST)
      || (p.brand != "" && forall b | Listed(p.brand, b) :: ContainsText(b, k) && Part(InOr, k, b))
  }

  // The requests whose filters mean to Supabase what they say.
  ghost predicate TakenLiterally(p: Params) {
    NoExactText(p) && Plain(p.vin, ANCHORS) && KeywordFits(p)
  }

  lemma PartPlain(rd: Reading, s: string, t: string)
    requires (rd == InColumn && Plain(s, ANCHORS)) || (rd == InOr && Plain(s, ANCHORS_AND_LIST))
    ensures Part(rd, s, t) <==> Part(AsMongo, s, t)
  {
    PlainContains(s, if rd == InColumn then ANCHORS else ANCHORS_AND_LIST, t);
  }

  lemma KeywordSame(p: Params, ctx: Context, car: Car)
    requires KeywordFits(p) && (p.brand != "" ==> Listed(p.brand, car.texts(Brand)))
    ensures KeywordOk(InOr, p, ctx, car) <==> KeywordOk(AsMongo, p, ctx, car)
  {
    var k := Trim(p.keyword);
    if ShortKeyword(p) && Plain(k, ANCHORS_AND_LIST) {
      hide Trim, Plain;
      PartPlain(InOr, k, car.texts(Title));
      PartPlain(InOr, k, car.texts(Brand));
    }
  }

  lemma RestSame(p: Params, ctx: Context, car: Car)
    requires TakenLiterally(p) && p.city == ""
    ensures RestOk(Supabase, p, ctx, car) <==> RestOk(Mongo, p, ctx, car)
  {
    hide KeywordOk, KeywordFits, Plain, Listed, Part, NumbersOk;
    PartPlain(InColumn, p.vin, car.texts(Vin));
    if p.brand != "" ==> Listed(p.brand, car.texts(Brand)) {
      KeywordSame(p, ctx, car);
    }
  }

  // ---------- a car that Supabase finds ----------

  // Both bounds were given and no number lies between them.
  predicate Crossed(lo: Num, loDefault: int, hi: Num, hiDefault: int) {
    lo != Absent && hi != Absent && ToNumber(lo, loDefault) > ToNumber(hi, hiDefault)
  }

  predicate RangesCross(p: Params) {
    || Crossed(p.minPrice, 0, p.maxPrice, 999999999) || Crossed(p.yearMin, 0, p.yearMax, 9999)
    || Crossed(p.mileageMin, 0, p.mileageMax, 9999999)
  }

  // A number between the bounds, if there is one.
  function Inside(lo: Num, loDefault: int, hi: Num, hiDefault: int): int {
    if lo != Absent then ToNumber(lo, loDefault) else ToNumber(hi, hiDefault)
  }

  // A car that meets all filters, with the given texts.
  function Tailored(p: Params, texts: Field -> string): Car {
    Car((f: Field) =>
          match f
          case Status => "available"
          case Dealer => "d"
          case AuctionStatus => if p.auctionStatus != "" then p.auctionStatus else if p.category == "fixed" then "none" else "live"
          case _ => texts(f),
        (f: Field) =>
          match f
          case Price => Inside(p.minPrice, 0, p.maxPrice, 999999999)
          case Year => Inside(p.yearMin, 0, p.yearMax, 9999)
          case _ => Inside(p.mileageMin, 0, p.mileageMax, 9999999),
        p.category != "fixed", true)
  }

  const ANYONE := Context(["d"], ["d"], (text, car) => true)

  lemma TailoredFits(layer: Layer, p: Params, texts: Field -> string)
    requires !RangesCross(p) && KeywordOk(OfBranches(layer), p, ANYONE, Tailored(p, texts))
    requires TextsOk(OfFields(layer), p, Tailored(p, texts))
    ensures RestOk(layer, p, ANYONE, Tailored(p, texts)) && CategoryAsBuilt(p, Tailored(p, texts))
    ensures CategoryOk(p, Tailored(p, texts)) <==> p.category != "fixed" || p.auctionStatus != "live"
  {
    hide KeywordOk, TextsOk;
    assert NumbersOk(p, Tailored(p, texts));
  }

  // The exact texts as asked.
  function Asked(p: Params, f: Field): string {
    match f
    case Model => p.model
    case City => p.city
    case BodyType => p.body
    case Fuel => p.fuel
    case Transmission => p.transmission
    case Color => p.color
    case Condition => p.condition
    case Engine => p.engine
    case Drivetrain => p.drivetrain
    case _ => ""
  }

  predicate IsExact(f: Field) {
    f.Model? || f.City? || f.BodyType? || f.Fuel? || f.Transmission? || f.Color? || f.Condition? || f.Engine? || f.Drivetrain?
  }

  lemma TailoredText(p: Params, texts: Field -> string, f: Field)
    requires f != Status && f != Dealer && f != AuctionStatus
    ensures Tailored(p, texts).texts(f) == texts(f)
  {
  }

  lemma AllSame(rd: Reading, p: Params, car: Car)
    requires forall f | IsExact(f) :: Same(rd, Asked(p, f), car.texts(f))
    requires (p.brand != "" ==> Listed(p.brand, car.texts(Brand))) && (p.vin != "" ==> Part(rd, p.vin, car.texts(Vin)))
    ensures TextsOk(rd, p, car)
  {
    hide Listed, Part, Same;
    assert IsExact(Model) && IsExact(City) && IsExact(BodyType) && IsExact(Fuel) && IsExact(Transmission) && IsExact(Color)
        && IsExact(Condition) && IsExact(Engine) && IsExact(Drivetrain);
  }

  lemma TextsFit(rd: Reading, p: Params, texts: Field -> string)
    requires p.brand != "" ==> Listed(p.brand, texts(Brand))
    requires p.vin != "" ==> Part(rd, p.vin, texts(Vin))
    requires forall f | IsExact(f) :: Same(rd, Asked(p, f), texts(f))
    ensures TextsOk(rd, p, Tailored(p, texts))
  {
    hide Listed, Part, Same, Tailored, TextsOk;
    var car := Tailored(p, texts);
    TailoredText(p, texts, Brand);
    TailoredText(p, texts, Vin);
    forall f | IsExact(f)
      ensures Same(rd, Asked(p, f), car.texts(f))
    {
      TailoredText(p, texts, f);
    }
    AllSame(rd, p, car);
  }

  // A text that is found for w, and is longer.
  function Far(w: string): string { w + "x" + Instance(ColumnPattern(Anchored(w))) }

  lemma FarFound(w: string)
    ensures Like(ColumnPattern(Anchored(w)), Far(w)) && !SameText(Far(w), w)
  {
    var p := ColumnPattern(Anchored(w));
    InstanceLikes(p);
    assert p == "%" + (Core(Anchored(w), ANCHORS) + "%");
    LikePrefix(Core(Anchored(w), ANCHORS) + "%", w + "x", Instance(p));
    assert |Far(w)| > |w| && |Lower(Far(w))| > |Lower(w)|;
  }

  function FarTexts(p: Params, title: string, brand: string, f: Field): string {
    if f == Title then title
    else if f == Brand then brand
    else if f == Vin then Instance(ColumnPattern(Escape(p.vin)))
    else Far(Asked(p, f))
  }

  function FoundCar(p: Params, title: string, brand: string): Car {
    Tailored(p, f => FarTexts(p, title, brand, f))
  }

  lemma FarCarFits(p: Params, title: string, brand: string)
    requires p.brand != "" ==> Listed(p.brand, brand)
    ensures TextsOk(InColumn, p, FoundCar(p, title, brand))
  {
    hide Listed, Like, Far, Instance, ColumnPattern;
    var texts := (f: Field) => FarTexts(p, title, brand, f);
    VinFound(p.vin);
    forall f | IsExact(f)
      ensures Same(InColumn, Asked(p, f), texts(f))
    {
      FarFound(Asked(p, f));
    }
    TextsFit(InColumn, p, texts);
  }

  lemma VinFound(vin: string)
    ensures Part(InColumn, vin, Instance(ColumnPattern(Escape(vin))))
  {
    InstanceLikes(ColumnPattern(Escape(vin)));
  }

  lemma PartFound(k: string)
    ensures Part(InOr, k, Instance(OrPattern(Escape(k))))
  {
    InstanceLikes(OrPattern(Escape(k)));
  }

  lemma TitleFound(p: Params, title: string, car: Car)
    requires Part(InOr, Trim(p.keyword), title) && car.texts(Title) == title
    ensures KeywordOk(InOr, p, ANYONE, car)
  {
    hide Part, Trim;
  }

  lemma FoundCarIsFound(p: Params, brand: string)
    requires !RangesCross(p) && (p.brand != "" ==> Listed(p.brand, brand))
    ensures var car := FoundCar(p, Instance(OrPattern(Escape(Trim(p.keyword)))), brand);
      RestOk(Supabase, p, ANYONE, car) && CategoryAsBuilt(p, car)
  {
    var k := Trim(p.keyword);
    var title := Instance(OrPattern(Escape(k)));
    hide TextsOk, RangesCross, Trim, Part, Instance, OrPattern, Listed, Escape, Tailored, KeywordOk, RestOk, CategoryAsBuilt, CategoryOk;
    var texts := (f: Field) => FarTexts(p, title, brand, f);
    PartFound(k);
    FarCarFits(p, title, brand);
    TailoredText(p, texts, Title);
    TitleFound(p, title, Tailored(p, texts));
    TailoredFits(Supabase, p, texts);
  }

  // ---------- what goes wrong ----------

  lemma WantedTextsOk(p: Params, ctx: Context, car: Car)
    requires Wanted(p, ctx, car)
    ensures TextsOk(AsMongo, p, car)
  {
    hide KeywordOk, NumbersOk, SellerOk, CategoryOk, TextsOk;
  }

  // A wanted car has the texts that were asked for.
  lemma WantedTexts(p: Params, ctx: Context, car: Car)
    requires Wanted(p, ctx, car)
    ensures forall f | IsExact(f) && Asked(p, f) != "" :: SameText(car.texts(f), Asked(p, f))
    ensures p.vin != "" ==> ContainsText(car.texts(Vin), p.vin)
  {
    WantedTextsOk(p, ctx, car);
    hide Wanted, ContainsText, SameText, TextsOk;
    TextsAsked(p, car);
  }

  lemma TextsAsked(p: Params, car: Car)
    requires TextsOk(AsMongo, p, car)
    ensures forall f | IsExact(f) :: Same(AsMongo, Asked(p, f), car.texts(f))
    ensures p.vin != "" ==> Part(AsMongo, p.vin, car.texts(Vin))
  {
    hide Same, Part, Listed;
  }

  lemma WantedKeyword(p: Params, ctx: Context, car: Car)
    requires Wanted(p, ctx, car) && ShortKeyword(p)
    ensures ContainsText(car.texts(Title), Trim(p.keyword)) || ContainsText(car.texts(Brand), Trim(p.keyword))
  {
    hide NumbersOk, SellerOk, CategoryOk, ContainsText, TextsOk, Trim;
  }

  lemma WantedStatus(p: Params, ctx: Context, car: Car)
    requires Wanted(p, ctx, car)
    ensures p.category != "fixed" || p.auctionStatus != "live"
  {
    hide KeywordOk, NumbersOk, SellerOk, TextsOk;
  }

  lemma SomeExact(p: Params) returns (f: Field)
    requires !NoExactText(p)
    ensures IsExact(f) && Asked(p, f) != ""
  {
    f := if p.model != "" then Model else if p.body != "" then BodyType else if p.fuel != "" then Fuel
         else if p.transmission != "" then Transmission else if p.color != "" then Color
         else if p.condition != "" then Condition else if p.engine != "" then Engine else Drivetrain;
  }

  // The found car is not wanted when an exact text was asked for, or the VIN is not plain, or fixed-price
  // cars in the status live were asked for.
  lemma FoundNotWanted(p: Params, title: string, brand: string)
    requires !NoExactText(p) || !Plain(p.vin, ANCHORS) || (p.category == "fixed" && p.auctionStatus == "live")
    ensures !Wanted(p, ANYONE, FoundCar(p, title, brand))
  {
    hide Wanted, Far, SameText, Instance, Like, Tailored, Plain, NoExactText, Wrapped, ContainsText, Escape, Anchored;
    var car := FoundCar(p, title, brand);
    var texts := (f: Field) => FarTexts(p, title, brand, f);
    if Wanted(p, ANYONE, car) {
      WantedTexts(p, ANYONE, car);
      WantedStatus(p, ANYONE, car);
      if !NoExactText(p) {
        var f := SomeExact(p);
        TailoredText(p, texts, f);
        FarFound(Asked(p, f));
      } else {
        NotPlainDiffers(p.vin, ANCHORS);
        PlainEmpty(ANCHORS);
        TailoredText(p, texts, Vin);
      }
    }
  }

  lemma PlainEmpty(chars: string)
    ensures Plain("", chars)
  {
  }

  // Nor when the short keyword is not plain and the brand does not contain it.
  lemma KeywordFoundNotContained(p: Params, brand: string)
    requires ShortKeyword(p) && !Plain(Trim(p.keyword), ANCHORS_AND_LIST) && !ContainsText(brand, Trim(p.keyword))
    ensures !Wanted(p, ANYONE, FoundCar(p, Instance(OrPattern(Escape(Trim(p.keyword)))), brand))
  {
    hide Wanted, Far, Trim, Plain, ContainsText, Instance, Like, Tailored, Escape, Wrapped, ShortKeyword;
    var k := Trim(p.keyword);
    var title := Instance(OrPattern(Escape(k)));
    var car := FoundCar(p, title, brand);
    var texts := (f: Field) => FarTexts(p, title, brand, f);
    NotPlainDiffers(k, ANCHORS_AND_LIST);
    TailoredText(p, texts, Title);
    TailoredText(p, texts, Brand);
    if Wanted(p, ANYONE, car) {
      WantedKeyword(p, ANYONE, car);
    }
  }

  // What was asked for, in every text.
  function AskedTexts(p: Params, title: string, brand: string, f: Field): string {
    if f == Title then title else if f == Brand then brand else if f == Vin then p.vin else Asked(p, f)
  }

  function AskedCar(p: Params, title: string, brand: string): Car {
    Tailored(p, f => AskedTexts(p, title, brand, f))
  }

  lemma ContainsItself(s: string)
    ensures ContainsText(s, s)
  {
    assert s[0..] == s && s[..|s|] == s;
    assert StartsSame(s[0..], s);
  }

  lemma AskedTextsFit(p: Params, title: string, brand: string)
    requires p.brand != "" ==> Listed(p.brand, brand)
    ensures TextsOk(AsMongo, p, AskedCar(p, title, brand))
  {
    var texts := (f: Field) => AskedTexts(p, title, brand, f);
    ContainsItself(p.vin);
    hide ContainsText, SameText, Listed, Tailored, TextsOk;
    forall f | IsExact(f)
      ensures Same(AsMongo, Asked(p, f), texts(f))
    {
      assert texts(f) == Asked(p, f);
      SameItself(Asked(p, f));
    }
    hide Same;
    TextsFit(AsMongo, p, texts);
  }

  lemma SameItself(s: string)
    ensures SameText(s, s)
  {
  }

  lemma AskedCarFits(p: Params, title: string, brand: string)
    requires !RangesCross(p) && (p.brand != "" ==> Listed(p.brand, brand))
    requires ShortKeyword(p) ==> ContainsText(title, Trim(p.keyword))
    ensures RestOk(Mongo, p, ANYONE, AskedCar(p, title, brand)) && CategoryAsBuilt(p, AskedCar(p, title, brand))
    ensures Wanted(p, ANYONE, AskedCar(p, title, brand)) <==> p.category != "fixed" || p.auctionStatus != "live"
  {
    var texts := (f: Field) => AskedTexts(p, title, brand, f);
    hide ContainsText, Listed, RangesCross, Trim, TextsOk, Tailored, RestOk, CategoryOk, CategoryAsBuilt;
    AskedTextsFit(p, title, brand);
    TailoredText(p, texts, Title);
    TailoredFits(Mongo, p, texts);
  }

  // A car whose title and brand are both the requested brand, which contains the keyword but does not match
  // its pattern, is wanted and not found.
  lemma KeywordContainedNotFound(p: Params, brand: string)
    requires !RangesCross(p) && (p.category != "fixed" || p.auctionStatus != "live") && ShortKeyword(p)
    requires p.brand != "" && Listed(p.brand, brand)
    requires ContainsText(brand, Trim(p.keyword)) && !Part(InOr, Trim(p.keyword), brand)
    ensures Wanted(p, ANYONE, AskedCar(p, brand, brand)) && !RestOk(Supabase, p, ANYONE, AskedCar(p, brand, brand))
  {
    hide Trim, Listed, ContainsText, Part, TextsOk, NumbersOk, RangesCross, Wanted, Tailored;
    AskedCarFits(p, brand, brand);
    var car := AskedCar(p, brand, brand);
    var texts := (f: Field) => AskedTexts(p, brand, brand, f);
    TailoredText(p, texts, Title);
    TailoredText(p, texts, Brand);
    assert !KeywordOk(InOr, p, ANYONE, car);
  }

  // ---------- exactly ----------

  // Whatever cars and sellers there are, the answer lists exactly the wanted cars.
  ghost predicate Right(layer: Layer, p: Params) {
    forall ctx: Context, car: Car :: RightFor(layer, p, ctx, car)
  }

  // The answer is no failure, and lists this car exactly if it is wanted.
  ghost predicate RightFor(layer: Layer, p: Params, ctx: Context, car: Car) {
    !Fails(layer, p, ctx) && (Finds(layer, Built(p, ctx), ctx, car) <==> Wanted(p, ctx, car))
  }

  lemma WrongAt(layer: Layer, p: Params, car: Car)
    requires (RestOk(layer, p, ANYONE, car) && CategoryAsBuilt(p, car)) != Wanted(p, ANYONE, car)
    ensures !Right(layer, p)
  {
    hide RestOk, CategoryAsBuilt, Wanted, Finds;
    BuiltFinds(layer, p, ANYONE, car);
    assert !RightFor(layer, p, ANYONE, car);
  }

  lemma NothingFits(layer: Layer, p: Params, ctx: Context, car: Car)
    requires RangesCross(p)
    ensures !RestOk(layer, p, ctx, car)
  {
    hide KeywordOk, TextsOk;
  }

  // The brand of the car found: one of those requested, and without the keyword if there is one.
  lemma ABrand(p: Params) returns (brand: string)
    ensures p.brand != "" ==> Listed(p.brand, brand)
    ensures (p.brand == "" || exists b :: Listed(p.brand, b) && !ContainsText(b, Trim(p.keyword))) ==>
              Trim(p.keyword) == "" || !ContainsText(brand, Trim(p.keyword))
  {
    var k := Trim(p.keyword);
    hide Trim;
    if p.brand == "" {
      brand := "";
      if k != "" {
        assert !ContainsText("", k);
      }
    } else if b :| Listed(p.brand, b) && !ContainsText(b, k) {
      brand := b;
    } else {
      brand := Split(p.brand)[0];
      SplitLists(p.brand, brand);
    }
  }

  lemma SupabaseWrong(p: Params)
    requires !RangesCross(p) && (!TakenLiterally(p) || (p.category == "fixed" && p.auctionStatus == "live"))
    ensures !Right(Supabase, p)
  {
    var k := Trim(p.keyword);
    var brand := ABrand(p);
    var title := Instance(OrPattern(Escape(k)));
    hide Trim, RangesCross, Listed, ContainsText, Part, Plain, Instance, OrPattern, RestOk, CategoryAsBuilt, Wanted, FoundCar, AskedCar,
      Right, Escape;
    FoundCarIsFound(p, brand);
    if !NoExactText(p) || !Plain(p.vin, ANCHORS) || (p.category == "fixed" && p.auctionStatus == "live") {
      FoundNotWanted(p, title, brand);
      WrongAt(Supabase, p, FoundCar(p, title, brand));
    } else if p.brand == "" || exists b :: Listed(p.brand, b) && !ContainsText(b, k) {
      PlainEmpty(ANCHORS_AND_LIST);
      KeywordFoundNotContained(p, brand);
      WrongAt(Supabase, p, FoundCar(p, title, brand));
    } else {
      var b :| Listed(p.brand, b) && !(ContainsText(b, k) && Part(InOr, k, b));
      KeywordContainedNotFound(p, b);
      WrongAt(Supabase, p, AskedCar(p, b, b));
    }
  }

  lemma SupabaseRight(p: Params)
    requires !FailsFor(p) && (RangesCross(p) || (TakenLiterally(p) && (p.category != "fixed" || p.auctionStatus != "live")))
    ensures Right(Supabase, p)
  {
    forall ctx: Context, car: Car
      ensures RightFor(Supabase, p, ctx, car)
    {
      FailsExactly(p, ctx);
      BuiltFinds(Supabase, p, ctx, car);
      hide Finds, Fails, TakenLiterally;
      if RangesCross(p) {
        NothingFits(Supabase, p, ctx, car);
        NothingFits(Mongo, p, ctx, car);
      } else {
        RestSame(p, ctx, car);
        StatusAsked(p, ctx, car);
      }
    }
  }

  lemma StatusAsked(p: Params, ctx: Context, car: Car)
    requires p.category != "fixed" || p.auctionStatus != "live"
    ensures RestOk(Mongo, p, ctx, car) ==> (CategoryOk(p, car) <==> CategoryAsBuilt(p, car))
  {
    hide KeywordOk, NumbersOk, TextsOk;
  }

  lemma MongoRight(p: Params)
    requires p.category != "fixed" || p.auctionStatus != "live" || RangesCross(p)
    ensures Right(Mongo, p)
  {
    forall ctx: Context, car: Car
      ensures RightFor(Mongo, p, ctx, car)
    {
      hide Finds, RangesCross, Wanted, RestOk;
      QueryMeansFilters(p, ctx, car);
      if RangesCross(p) {
        NothingFits(Mongo, p, ctx, car);
      }
    }
  }

  lemma MongoWrong(p: Params)
    requires p.category == "fixed" && p.auctionStatus == "live" && !RangesCross(p)
    ensures !Right(Mongo, p)
  {
    hide Trim, RangesCross, Listed, ContainsText, RestOk, CategoryAsBuilt, Wanted, AskedCar, Right;
    var brand := ABrand(p);
    var title := Trim(p.keyword);
    ContainsItself(title);
    AskedCarFits(p, title, brand);
    WrongAt(Mongo, p, AskedCar(p, title, brand));
  }

  lemma FailingIsWrong(p: Params)
    requires FailsFor(p)
    ensures !Right(Supabase, p)
  {
    hide FailsFor, Finds, Wanted, Fails;
    FailsExactly(p, ANYONE);
    assert !RightFor(Supabase, p, ANYONE, Tailored(p, f => ""));
  }

  // Exactly which requests are answered rightly.
  // With MongoDB: all but those for fixed-price cars in the auction status `live`.
  // With Supabase: those that do not fail, ask for no exact text, have no character in VIN or short keyword
  // that means something else to ilike, and are not the request above.
  // In both: also those whose number ranges let no car through anyway, if they do not fail.
  lemma RightExactlyWhen(layer: Layer, p: Params)
    ensures Right(layer, p) <==>
            && !(layer == Supabase && FailsFor(p))
            && (RangesCross(p)
                || ((layer == Supabase ==> TakenLiterally(p)) && (p.category != "fixed" || p.auctionStatus != "live")))
  {
    hide TakenLiterally, RangesCross, Right, FailsFor;
    if layer == Mongo {
      if p.category != "fixed" || p.auctionStatus != "live" || RangesCross(p) {
        MongoRight(p);
      } else {
        MongoWrong(p);
      }
    } else if FailsFor(p) {
      FailingIsWrong(p);
    } else if RangesCross(p) || (TakenLiterally(p) && (p.category != "fixed" || p.auctionStatus != "live")) {
      SupabaseRight(p);
    } else {
      SupabaseWrong(p);
    }
  }

  // ---------- the failures, one by one ----------

  // model=A4 finds the A4 Allroad.  By FarFound it is so for every exact text: something longer is found.
  lemma ModelFindsMore(p: Params, ctx: Context, car: Car)
    requires p.model == "A4" && car.texts(Model) == "A4 Allroad"
    ensures Same(InColumn, p.model, car.texts(Model)) && !Wanted(p, ctx, car)
  {
    hide Wanted, Like, SameText, ContainsText, Wrapped, Escape, Anchored;
    Allroad();
    AnchorsGone("A4");
    assert IsExact(Model) && Asked(p, Model) == "A4";
    PlainContains("A4", ANCHORS, "A4 Allroad");
    if Wanted(p, ctx, car) {
      WantedTexts(p, ctx, car);
    }
  }

  lemma Allroad()
    ensures ContainsText("A4 Allroad", "A4") && !SameText("A4 Allroad", "A4") && Plain("A4", ANCHORS)
  {
    hide Lower, StartsSame;
    assert |Lower("A4 Allroad")| == 10 && |Lower("A4")| == 2;
    AllroadStarts();
    assert "A4 Allroad"[0..] == "A4 Allroad";
    assert StartsSame("A4 Allroad"[0..], "A4");
  }

  lemma AllroadStarts()
    ensures StartsSame("A4 Allroad", "A4")
  {
    assert "A4 Allroad"[..2] == "A4";
  }

  // Asking for dealers' or private sellers' cars, for a city, by keyword without choosing an order, or by a
  // short keyword among auctions, answers 500.
  lemma TheseFail(p: Params, ctx: Context)
    ensures p.dealerType == "dealer" || p.dealerType == "private" ==> Fails(Supabase, p, ctx)
    ensures p.city != "" ==> Fails(Supabase, p, ctx)
    ensures p.keyword != "" && |Trim(p.keyword)| >= 3 && p.sort == "" ==> Fails(Supabase, p, ctx)
    ensures p.category == "auction" && p.keyword != "" && |Trim(p.keyword)| < 3 ==> Fails(Supabase, p, ctx)
    ensures p.keyword != "" && ')' in Trim(p.keyword) ==> Fails(Supabase, p, ctx)
  {
    hide Fails, Trim;
    FailsExactly(p, ctx);
  }
}
