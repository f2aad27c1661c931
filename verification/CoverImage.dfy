/**
 The index of the cover image in backend/controllers/carController.js, through creating and updating a
 listing and deleting and adding images.  Numbers from requests are reals; the column is an integer, so
 saving a fraction or an empty text fails and leaves the row as it was.

 Two things around the handlers are parameters.  `validated`: the routes put validateCar of
 backend/middleware/validate.js in front of creating and updating, which turns null and empty text into 0
 and refuses what is no whole number.  `setWorks`: updateCar assigns through car.set, which the documents
 of backend/models/_base.js do not have, so that naming any field it may assign throws.
 */
module CoverImage {
  import opened Wrappers

  // cover is None where the column is NULL.
  datatype Listing = Listing(images: seq<string>, cover: Option<int>)

  // coverImage in a request body: not there, null, "", something that is not a number, or a number.
  datatype Incoming = Absent | Null | Empty | NotANumber | Num(r: real)

  // Number(value), None for NaN.
  function ToNumber(v: Incoming): Option<real> {
    match v
    case Absent => None
    case Null => Some(0.0)
    case Empty => Some(0.0)
    case NotANumber => None
    case Num(r) => Some(r)
  }

  predicate Integral(r: real) { r.Floor as real == r }

  datatype Setting = Setting(validated: bool, setWorks: bool)

  // The setting at this commit.
  const SOURCE := Setting(true, false)

  // z.coerce.number().int().min(0).optional(); None for the answer 400.
  function Coerced(v: Incoming): Option<Incoming> {
    match v
    case Absent => Some(Absent)
    case Null => Some(Num(0.0))
    case Empty => Some(Num(0.0))
    case NotANumber => None
    case Num(r) => if Integral(r) && r >= 0.0 then Some(v) else None
  }

  function Passed(cfg: Setting, v: Incoming): Option<Incoming> { if cfg.validated then Coerced(v) else Some(v) }

  // The column accepts the value.
  function Stored(images: seq<string>, r: real): Option<Listing> {
    if Integral(r) then Some(Listing(images, Some(r.Floor))) else None
  }

  predicate Between(v: Option<real>, n: nat) { v.Some? && 0.0 <= v.value < n as real }

  // ---------- the operations; None means that nothing was saved ----------

  function Create(cfg: Setting, images: seq<string>, v: Incoming): Option<Listing> {
    if images == [] || Passed(cfg, v).None? then None
    else
      var w := ToNumber(Passed(cfg, v).value);
      if Between(w, |images|) then Stored(images, w.value) else Some(Listing(images, Some(0)))
  }

  predicate IsUrl(s: string) { "http" <= s }

  // The first image with a real address, or the first.
  function FirstValid(images: seq<string>): (i: nat)
    ensures images != [] ==> i < |images|
    ensures (exists k :: 0 <= k < |images| && IsUrl(images[k])) ==> IsUrl(images[i]) && forall k | 0 <= k < i :: !IsUrl(images[k])
    ensures (forall k | 0 <= k < |images| :: !IsUrl(images[k])) ==> i == 0
  {
    if images == [] || IsUrl(images[0]) then 0
    else if exists k :: 0 <= k < |images| && IsUrl(images[k]) then
      assert exists k :: 0 <= k < |images[1..]| && IsUrl(images[1..][k]) by {
        var k :| 0 <= k < |images| && IsUrl(images[k]);
        assert images[1..][k - 1] == images[k];
      }
      var i := 1 + FirstValid(images[1..]);
      assert forall k | 0 < k < i :: images[k] == images[1..][k - 1];
      i
    else 0
  }

  // What an update names: images, the cover, and whether any other field that it may assign.
  datatype Body = Body(images: Option<seq<string>>, cover: Incoming, others: bool)

  // An empty text is kept as it came, which the column then refuses; null is kept and stored.
  function Assigned(l: Listing, newImages: Option<seq<string>>, v: Incoming): Option<Listing> {
    var images := if newImages.Some? then newImages.value else l.images;
    if images == [] then Some(Listing(images, Some(0)))
    else
      match v
      case Absent =>
        if l.cover.Some? && !(0 <= l.cover.value < |images|) then Some(Listing(images, Some(FirstValid(images))))
        else Some(Listing(images, l.cover))
      case Null => Some(Listing(images, None))
      case Empty => None
      case _ =>
        if Between(ToNumber(v), |images|) then Stored(images, ToNumber(v).value)
        else Some(Listing(images, Some(FirstValid(images))))
  }

  function Update(cfg: Setting, l: Listing, b: Body): Option<Listing> {
    match Passed(cfg, b.cover)
    case None => None
    case Some(v) =>
      if !cfg.setWorks && (b.images.Some? || v != Absent || b.others) then None else Assigned(l, b.images, v)
  }

  function Removed(images: seq<string>, i: nat): seq<string>
    requires i < |images|
  {
    images[..i] + images[i + 1..]
  }

  // index is Number(req.params.imageIndex); splice drops its fraction, the comparisons do not.
  function DeleteImage(l: Listing, index: Option<real>): Option<Listing> {
    if !Between(index, |l.images|) then None
    else
      var images := Removed(l.images, index.value.Floor);
      var cover :=
        if images == [] then Some(0)
        else if l.cover.Some? && index.value < l.cover.value as real then Some(l.cover.value - 1)
        else if l.cover.Some? && index.value == l.cover.value as real then Some(0)
        else l.cover;
      Some(Listing(images, cover))
  }

  function AddImages(l: Listing, more: seq<string>): Option<Listing> {
    if more == [] || |l.images| + |more| > 20 then None else Some(l.(images := l.images + more))
  }

  // ---------- the handlers ----------

  class Car {
    const setting: Setting
    var images: seq<string>
    var coverImage: Option<int>

    function Row(): Listing
      reads this
    {
      Listing(images, coverImage)
    }

    constructor (setting: Setting, l: Listing)
      ensures this.setting == setting && Row() == l
    {
      this.setting, images, coverImage := setting, l.images, l.cover;
    }

    method FindFirstValidIdx(images: seq<string>) returns (i: nat)
      ensures i == FirstValid(images)
    {
      i := 0;
      while i < |images|
        invariant i <= |images|
        invariant forall k | 0 <= k < i :: !IsUrl(images[k])
      {
        if IsUrl(images[i]) {
          ghost var j := FirstValid(images);
          assert j == i;
          return;
        }
        i := i + 1;
      }
      i := 0;
    }

    // The assignments and the choice of the cover, up to saving.
    method Assign(newImages: Option<seq<string>>, v: Incoming) returns (ok: bool)
      modifies this
      ensures ok <==> Assigned(old(Row()), newImages, v).Some?
      ensures Row() == if ok then Assigned(old(Row()), newImages, v).value else old(Row())
    {
      var hadExplicitCover := v != Absent && v != Null && v != Empty;
      var imgs := if newImages.Some? then newImages.value else images;
      var total := |imgs|;
      var cover: Option<int> := if v == Null then None else coverImage;
      if total == 0 {
        cover := Some(0);
      } else if !hadExplicitCover {
        if v == Empty {
          return false;
        }
        if cover.Some? && (cover.value < 0 || cover.value >= total) {
          var i := FindFirstValidIdx(imgs);
          cover := Some(i);
        }
      } else {
        var idx := ToNumber(v);
        if idx.Some? && idx.value >= 0.0 && idx.value < total as real {
          if !Integral(idx.value) {
            return false;
          }
          cover := Some(idx.value.Floor);
        } else {
          var i := FindFirstValidIdx(imgs);
          cover := Some(i);
        }
      }
      images, coverImage := imgs, cover;
      ok := true;
    }

    // The middleware and the handler.
    method UpdateCar(b: Body) returns (ok: bool)
      modifies this
      ensures ok <==> Update(setting, old(Row()), b).Some?
      ensures Row() == if ok then Update(setting, old(Row()), b).value else old(Row())
    {
      hide Assigned;
      var v := b.cover;
      if setting.validated {
        if v == NotANumber || (v.Num? && (!Integral(v.r) || v.r < 0.0)) {
          return false;
        }
        if v == Null || v == Empty {
          v := Num(0.0);
        }
      }
      if !setting.setWorks && (b.images.Some? || v != Absent || b.others) {
        return false;
      }
      ok := Assign(b.images, v);
    }

    method DeleteCarImage(index: Option<real>) returns (ok: bool)
      modifies this
      ensures ok <==> DeleteImage(old(Row()), index).Some?
      ensures Row() == if ok then DeleteImage(old(Row()), index).value else old(Row())
    {
      if index.None? || index.value < 0.0 || index.value >= |images| as real {
        return false;
      }
      images := images[..index.value.Floor] + images[index.value.Floor + 1..];
      if |images| == 0 {
        coverImage := Some(0);
      } else if coverImage.Some? && index.value < coverImage.value as real {
        coverImage := Some(coverImage.value - 1);
      } else if coverImage.Some? && index.value == coverImage.value as real {
        coverImage := Some(0);
      }
      ok := true;
    }

    method AddCarImages(more: seq<string>) returns (ok: bool)
      modifies this
      ensures ok <==> AddImages(old(Row()), more).Some?
      ensures Row() == if ok then AddImages(old(Row()), more).value else old(Row())
    {
      if |more| == 0 || |images| + |more| > 20 {
        return false;
      }
      images := images + more;
      ok := true;
    }
  }

  // ---------- the cover stays an image ----------

  // The cover is one of the images; 0 if there are none.
  predicate InRange(l: Listing) {
    l.cover.Some? && 0 <= l.cover.value && (if l.images == [] then l.cover.value == 0 else l.cover.value < |l.images|)
  }

  lemma CreateInRange(cfg: Setting, images: seq<string>, v: Incoming)
    ensures Create(cfg, images, v).Some? ==> InRange(Create(cfg, images, v).value)
  {
  }

  // An update that is saved keeps the cover in range, unless a null for it comes through while there are
  // images; it comes through only without validation.
  lemma UpdateInRange(cfg: Setting, l: Listing, b: Body)
    requires InRange(l) && Update(cfg, l, b).Some?
    ensures var l' := Update(cfg, l, b).value;
      InRange(l') <==> b.cover != Null || cfg.validated || l'.images == []
  {
  }

  // Deleting keeps the cover in range, unless the index is a fraction beyond the last image and that is
  // the cover: the image goes, and the cover stays behind.
  lemma DeleteInRange(l: Listing, index: real)
    requires InRange(l) && DeleteImage(l, Some(index)).Some?
    ensures InRange(DeleteImage(l, Some(index)).value)
            <==> Integral(index) || |l.images| == 1 || index.Floor != |l.images| - 1 || l.cover.value != |l.images| - 1
  {
  }

  // With whole indices the cover goes on showing the same image, or the first when that was deleted.
  lemma DeleteKeepsCover(l: Listing, index: real)
    requires InRange(l) && Integral(index) && DeleteImage(l, Some(index)).Some?
    ensures var l' := DeleteImage(l, Some(index)).value;
      l'.images != [] ==>
        && InRange(l')
        && (index.Floor != l.cover.value ==> l'.images[l'.cover.value] == l.images[l.cover.value])
        && (index.Floor == l.cover.value ==> l'.cover == Some(0))
  {
    var l' := DeleteImage(l, Some(index)).value;
    var i := index.Floor;
    if l'.images != [] && i != l.cover.value {
      if i < l.cover.value {
        assert l'.images[l.cover.value - 1] == l.images[l.cover.value];
      } else {
        assert l'.images[l.cover.value] == l.images[l.cover.value];
      }
    }
  }

  lemma AddKeepsCover(l: Listing, more: seq<string>)
    requires InRange(l) && AddImages(l, more).Some?
    ensures var l' := AddImages(l, more).value;
      InRange(l') && (l.images != [] ==> l'.images[l'.cover.value] == l.images[l.cover.value])
  {
  }

  // ---------- every run ----------

  datatype Action =
    | UpdateTo(body: Body)
    | Delete(index: Option<real>)
    | Add(more: seq<string>)

  function Step(cfg: Setting, l: Listing, a: Action): Listing {
    var r := match a
      case UpdateTo(b) => Update(cfg, l, b)
      case Delete(index) => DeleteImage(l, index)
      case Add(more) => AddImages(l, more);
    if r.Some? then r.value else l
  }

  function Run(cfg: Setting, l: Listing, actions: seq<Action>): Listing {
    if actions == [] then l else Step(cfg, Run(cfg, l, actions[..|actions| - 1]), actions[|actions| - 1])
  }

  // No null that comes through to be stored, and whole indices.
  predicate Plain(cfg: Setting, a: Action) {
    match a
    case UpdateTo(b) => b.cover != Null || cfg.validated || !cfg.setWorks
    case Delete(index) => index.Some? ==> Integral(index.value)
    case Add(_) => true
  }

  lemma {:induction false} CoverStaysInRange(cfg: Setting, images: seq<string>, v: Incoming, actions: seq<Action>)
    requires Create(cfg, images, v).Some? && forall i | 0 <= i < |actions| :: Plain(cfg, actions[i])
    ensures InRange(Run(cfg, Create(cfg, images, v).value, actions))
  {
    if actions == [] {
      CreateInRange(cfg, images, v);
    } else {
      var l, a := Run(cfg, Create(cfg, images, v).value, actions[..|actions| - 1]), actions[|actions| - 1];
      CoverStaysInRange(cfg, images, v, actions[..|actions| - 1]);
      match a
      case UpdateTo(b) => if Update(cfg, l, b).Some? { UpdateInRange(cfg, l, b); }
      case Delete(index) => if DeleteImage(l, index).Some? { DeleteInRange(l, index.value); }
      case Add(more) => if AddImages(l, more).Some? { AddKeepsCover(l, more); }
    }
  }

  predicate WholeIndices(actions: seq<Action>) {
    forall i | 0 <= i < |actions| && actions[i].Delete? && actions[i].index.Some? :: Integral(actions[i].index.value)
  }

  // Every run with whole indices keeps the cover in range, whatever covers the requests name.
  ghost predicate Safe(cfg: Setting) {
    forall images: seq<string>, v: Incoming, actions: seq<Action> |
      Create(cfg, images, v).Some? && WholeIndices(actions) ::
      InRange(Run(cfg, Create(cfg, images, v).value, actions))
  }

  // So it is at this commit; a null can break it if and only if the validation is missing and car.set works.
  lemma NullsBreakIff(cfg: Setting)
    ensures Safe(cfg) <==> cfg.validated || !cfg.setWorks
    ensures Safe(SOURCE)
  {
    NullsCannot(SOURCE);
    if cfg.validated || !cfg.setWorks {
      NullsCannot(cfg);
    } else {
      NullBreaks(cfg);
    }
  }

  lemma NullsCannot(cfg: Setting)
    requires cfg.validated || !cfg.setWorks
    ensures Safe(cfg)
  {
    hide Run, Create;
    forall images: seq<string>, v: Incoming, actions: seq<Action> |
      Create(cfg, images, v).Some? && WholeIndices(actions)
      ensures InRange(Run(cfg, Create(cfg, images, v).value, actions))
    {
      CoverStaysInRange(cfg, images, v, actions);
    }
  }

  lemma NullBreaks(cfg: Setting)
    requires !cfg.validated && cfg.setWorks
    ensures !Safe(cfg)
  {
    var images: seq<string>, actions: seq<Action> := ["http"], [UpdateTo(Body(None, Null, false))];
    assert Create(cfg, images, Absent) == Some(Listing(images, Some(0)));
    assert actions[..0] == [] && Run(cfg, Listing(images, Some(0)), []) == Listing(images, Some(0));
    assert !InRange(Run(cfg, Create(cfg, images, Absent).value, actions));
    assert WholeIndices(actions);
  }

  // With nulls and fractions as well, there are only two ways out of range: no cover, or the index just
  // behind the last image.
  predicate Known(l: Listing) {
    InRange(l) || l.cover.None? || l.cover.value == |l.images|
  }

  // What each action makes of the cover, whichever way it was: exactly when it is in range afterwards.
  predicate RightAfter(cfg: Setting, l: Listing, a: Action) {
    match a
    case UpdateTo(b) =>
      var n := if b.images.Some? then |b.images.value| else |l.images|;
      if Passed(cfg, b.cover).None? then InRange(l)
      else if !cfg.setWorks && (b.images.Some? || b.cover != Absent || b.others) then InRange(l)
      else
        n == 0 || (match Passed(cfg, b.cover).value
                   case Absent => l.cover.Some?
                   case Null => false
                   case Empty => InRange(l)
                   case NotANumber => true
                   case Num(r) => !(0.0 <= r < n as real) || Integral(r) || InRange(l))
    case Delete(index) =>
      if !Between(index, |l.images|) then InRange(l)
      else
        |l.images| == 1
        || (InRange(l) && (Integral(index.value) || index.value.Floor != |l.images| - 1 || l.cover.value != |l.images| - 1))
    case Add(more) =>
      if more == [] || |l.images| + |more| > 20 then InRange(l) else l.cover.Some?
  }

  lemma AssignedExact(l: Listing, newImages: Option<seq<string>>, v: Incoming)
    requires Known(l)
    ensures var n := if newImages.Some? then |newImages.value| else |l.images|;
      var r := Assigned(l, newImages, v);
      var l' := if r.Some? then r.value else l;
      && Known(l')
      && (InRange(l') <==>
            n == 0 || (match v
                       case Absent => l.cover.Some?
                       case Null => false
                       case Empty => InRange(l)
                       case NotANumber => true
                       case Num(x) => !(0.0 <= x < n as real) || Integral(x) || InRange(l)))
  {
  }

  lemma DeleteExact(cfg: Setting, l: Listing, index: Option<real>)
    requires Known(l)
    ensures var a := Delete(index);
      Known(Step(cfg, l, a)) && (InRange(Step(cfg, l, a)) <==> RightAfter(cfg, l, a))
  {
  }

  lemma StepExact(cfg: Setting, l: Listing, a: Action)
    requires Known(l)
    ensures Known(Step(cfg, l, a)) && (InRange(Step(cfg, l, a)) <==> RightAfter(cfg, l, a))
  {
    match a
    case UpdateTo(b) =>
      hide Assigned, InRange, Known, Coerced;
      var v := Passed(cfg, b.cover);
      if v.Some? {
        AbsentStays(cfg, b.cover);
        AssignedExact(l, b.images, v.value);
      }
    case Delete(index) => DeleteExact(cfg, l, index);
    case Add(more) =>
  }

  lemma AbsentStays(cfg: Setting, v: Incoming)
    requires Passed(cfg, v).Some?
    ensures Passed(cfg, v).value == Absent <==> v == Absent
  {
  }

  // In every run: the cover is in range, absent, or just behind the last image, and each action leaves it in
  // range exactly as said above.
  lemma {:induction false} CoverExactly(cfg: Setting, images: seq<string>, v: Incoming, actions: seq<Action>, a: Action)
    requires Create(cfg, images, v).Some?
    ensures var l := Run(cfg, Create(cfg, images, v).value, actions);
      Known(l) && (InRange(Step(cfg, l, a)) <==> RightAfter(cfg, l, a))
  {
    hide Step, RightAfter;
    var l := Create(cfg, images, v).value;
    if actions == [] {
      CreateInRange(cfg, images, v);
    } else {
      var k := |actions| - 1;
      CoverExactly(cfg, images, v, actions[..k], a);
      StepExact(cfg, Run(cfg, l, actions[..k]), actions[k]);
    }
    StepExact(cfg, Run(cfg, l, actions), a);
  }

  // ---------- what each request saves ----------

  // The first image whose address begins with http, or the first image.
  predicate FirstToShow(images: seq<string>, i: int) {
    && 0 <= i < |images|
    && if "http" <= images[i] then forall k | 0 <= k < i :: !("http" <= images[k])
       else i == 0 && forall k | 0 <= k < |images| :: !("http" <= images[k])
  }

  lemma FirstValidShows(images: seq<string>)
    requires images != []
    ensures FirstToShow(images, FirstValid(images))
  {
  }

  // The middleware refuses the value.
  predicate Invalid(v: Incoming) { v == NotANumber || (v.Num? && !(v.r >= 0.0 && Integral(v.r))) }

  // An index of an image, perhaps with a fraction.
  predicate WithinImages(v: Incoming, images: seq<string>) { v.Num? && 0.0 <= v.r && v.r < |images| as real }

  // A listing needs an image; the cover is the number asked for where that is an image's, and 0 elsewhere.
  lemma CreatesExactly(cfg: Setting, images: seq<string>, v: Incoming)
    ensures Create(cfg, images, v) == None
            <==> images == [] || (cfg.validated && Invalid(v)) || (WithinImages(v, images) && !Integral(v.r))
    ensures Create(cfg, images, v).Some? ==> var l := Create(cfg, images, v).value;
      && l.images == images && l.cover.Some?
      && (if WithinImages(v, images) then l.cover.value as real == v.r else l.cover.value == 0)
  {
  }

  // An update is refused for an invalid number, for anything that is assigned where assigning throws, and
  // for what the column does not take.  Otherwise the cover is the number asked for where that is an
  // image's, the first image to show where it is not, and 0 where there are no images.
  lemma UpdatesExactly(cfg: Setting, l: Listing, b: Body)
    ensures var images := if b.images.Some? then b.images.value else l.images;
      Update(cfg, l, b) == None
      <==> || (cfg.validated && Invalid(b.cover))
           || (!cfg.setWorks && (b.images.Some? || b.cover != Absent || b.others))
           || (images != [] && !cfg.validated && b.cover == Empty)
           || (WithinImages(b.cover, images) && !Integral(b.cover.r))
    ensures Update(cfg, l, b).Some? ==> var l' := Update(cfg, l, b).value;
      && l'.images == (if b.images.Some? then b.images.value else l.images)
      && (l'.images == [] ==> l'.cover == Some(0))
      && (l'.images != [] ==>
            match b.cover
            case Absent =>
              if l.cover.None? || 0 <= l.cover.value < |l'.images| then l'.cover == l.cover
              else l'.cover.Some? && FirstToShow(l'.images, l'.cover.value)
            case Null => l'.cover == if cfg.validated then Some(0) else None
            case Empty => l'.cover == Some(0)
            case NotANumber => l'.cover.Some? && FirstToShow(l'.images, l'.cover.value)
            case Num(r) =>
              && l'.cover.Some?
              && if WithinImages(b.cover, l'.images) then l'.cover.value as real == r
                 else FirstToShow(l'.images, l'.cover.value))
  {
    var images := if b.images.Some? then b.images.value else l.images;
    if images != [] {
      FirstValidShows(images);
    }
    hide FirstValid;
  }
}
