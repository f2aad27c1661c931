/**
 Pages and their history in backend/controllers/cmsController.js: create, update, delete, change of
 status and rollback, with the append-only list of revisions.  Handlers are atomic, page ids are never
 reused, and findByIdAndUpdate returns the updated row.  The database may refuse a row, for a slug that
 is taken or a column that is missing: then the handler throws before it writes a revision.  A field that is absent from a request is
 dropped from the update, so the row keeps its old value, and is absent from the revision too.
 */
module CmsHistory {
  import opened Wrappers

  datatype Data = Data(title: Option<string>, slug: Option<string>, pageType: Option<string>,
                       content: Option<string>, seo: Option<string>)
  {
    predicate Full() { title.Some? && slug.Some? && pageType.Some? && content.Some? && seo.Some? }
  }

  datatype Page = Page(data: Data, status: string, version: nat)
  datatype Revision = Revision(page: nat, version: nat, data: Data)
  datatype State = State(pages: map<nat, Page>, revisions: seq<Revision>, nextId: nat)
  datatype Reply = Created(id: nat) | Ok | NotFound | SlugTaken | Crash

  function Or(a: Option<string>, b: Option<string>): Option<string> { if a.Some? then a else b }

  // old with the fields that are present in new.
  function Merge(old_: Data, new_: Data): Data {
    Data(Or(new_.title, old_.title), Or(new_.slug, old_.slug), Or(new_.pageType, old_.pageType),
         Or(new_.content, old_.content), Or(new_.seo, old_.seo))
  }

  // Another page with the slug; a slug that is absent is no condition at all.
  predicate SlugConflict(pages: map<nat, Page>, slug: Option<string>, self: Option<nat>) {
    exists id | id in pages :: self != Some(id) && (slug.None? || pages[id].data.slug == slug)
  }

  function Defaults(d: Data): Data {
    d.(pageType := if d.pageType.None? || d.pageType == Some("") then Some("page") else d.pageType,
       content := Or(d.content, Some("[]")), seo := Or(d.seo, Some("{}")))
  }

  function FindRevision(revisions: seq<Revision>, page: nat, version: nat): (r: Option<nat>)
    ensures r.Some? ==> r.value < |revisions| && revisions[r.value].page == page && revisions[r.value].version == version
    ensures r.None? ==> forall i | 0 <= i < |revisions| :: revisions[i].page != page || revisions[i].version != version
  {
    if revisions == [] then None
    else
      var k := |revisions| - 1;
      var r := FindRevision(revisions[..k], page, version);
      if r.Some? then r
      else if revisions[k].page == page && revisions[k].version == version then Some(k) else None
  }

  datatype Action =
    | Create(data: Data, status: string, accepted: bool)
    | Update(id: nat, data: Data, newStatus: Option<string>, accepted: bool)
    | Delete(id: nat)
    | SetStatus(id: nat, status: string)
    | Rollback(id: nat, version: nat, accepted: bool)

  function Step(s: State, a: Action): (State, Reply) {
    match a
    case Create(d, status, accepted) =>
      if SlugConflict(s.pages, d.slug, None) then (s, SlugTaken)
      else if !accepted then (s, Crash)
      else
        (State(s.pages[s.nextId := Page(Defaults(d), status, 1)], s.revisions + [Revision(s.nextId, 1, d)], s.nextId + 1),
         Created(s.nextId))
    case Update(id, d, status, accepted) =>
      if id !in s.pages then (s, NotFound)
      else if d.slug != s.pages[id].data.slug && SlugConflict(s.pages, d.slug, Some(id)) then (s, SlugTaken)
      else if !accepted then (s, Crash)
      else
        var p := s.pages[id];
        var p' := Page(Merge(p.data, d), if status.Some? then status.value else p.status, p.version + 1);
        (s.(pages := s.pages[id := p'], revisions := s.revisions + [Revision(id, p'.version, d)]), Ok)
    case Delete(id) => (s.(pages := s.pages - {id}), Ok)
    case SetStatus(id, status) =>
      (if id in s.pages then s.(pages := s.pages[id := s.pages[id].(status := status)]) else s, Ok)
    case Rollback(id, version, accepted) =>
      match FindRevision(s.revisions, id, version)
      case None => (s, NotFound)
      case Some(i) =>
        if id !in s.pages || !accepted then (s, Crash)
        else
          var p, d := s.pages[id], s.revisions[i].data;
          var p' := p.(data := Merge(p.data, d), version := p.version + 1);
          (s.(pages := s.pages[id := p'], revisions := s.revisions + [Revision(id, p'.version, d)]), Ok)
  }

  class CmsStore {
    var pages: map<nat, Page>
    var revisions: seq<Revision>
    var nextId: nat

    function Abs(): State
      reads this
    {
      State(pages, revisions, nextId)
    }

    constructor ()
      ensures Abs() == State(map[], [], 0)
    {
      pages, revisions, nextId := map[], [], 0;
    }

    method CreatePage(d: Data, status: string, accepted: bool) returns (r: Reply)
      modifies this
      ensures (Abs(), r) == Step(old(Abs()), Create(d, status, accepted))
    {
      if SlugConflict(pages, d.slug, None) {
        return SlugTaken;
      }
      if !accepted {
        return Crash;
      }
      var id := nextId;
      pages := pages[id := Page(Defaults(d), status, 1)];
      nextId := nextId + 1;
      revisions := revisions + [Revision(id, 1, d)];
      r := Created(id);
    }

    method UpdatePage(id: nat, d: Data, status: Option<string>, accepted: bool) returns (r: Reply)
      modifies this
      ensures (Abs(), r) == Step(old(Abs()), Update(id, d, status, accepted))
    {
      if id !in pages {
        return NotFound;
      }
      var existing := pages[id];
      if d.slug != existing.data.slug {
        if SlugConflict(pages, d.slug, Some(id)) {
          return SlugTaken;
        }
      }
      if !accepted {
        return Crash;
      }
      var updated := Page(Merge(existing.data, d), if status.Some? then status.value else existing.status, existing.version + 1);
      pages := pages[id := updated];
      revisions := revisions + [Revision(id, updated.version, d)];
      r := Ok;
    }

    method RollbackPage(id: nat, version: nat, accepted: bool) returns (r: Reply)
      modifies this
      ensures (Abs(), r) == Step(old(Abs()), Rollback(id, version, accepted))
    {
      var i := FindRevision(revisions, id, version);
      if i.None? {
        return NotFound;
      }
      var revision := revisions[i.value];
      if id !in pages || !accepted {
        return Crash;
      }
      var page := pages[id].(data := Merge(pages[id].data, revision.data), version := pages[id].version + 1);
      pages := pages[id := page];
      revisions := revisions + [Revision(id, page.version, revision.data)];
      r := Ok;
    }

    method DeletePage(id: nat)
      modifies this
      ensures Abs() == Step(old(Abs()), Delete(id)).0
    {
      pages := pages - {id};
    }

    method ChangeStatus(id: nat, status: string)
      modifies this
      ensures Abs() == Step(old(Abs()), SetStatus(id, status)).0
    {
      if id in pages {
        pages := pages[id := pages[id].(status := status)];
      }
    }
  }

  // ---------- every run ----------

  function Run(s: State, actions: seq<Action>): State {
    if actions == [] then s else Step(Run(s, actions[..|actions| - 1]), actions[|actions| - 1]).0
  }

  const EMPTY := State(map[], [], 0)

  // The revisions of a live page carry the versions 1 to its own, each once and in this order.
  predicate Numbered(s: State, id: nat)
    requires id in s.pages
  {
    VersionsOf(s.revisions, id) == seq(s.pages[id].version, i => i + 1)
  }

  function VersionsOf(revisions: seq<Revision>, id: nat): seq<int> {
    if revisions == [] then []
    else
      var k := |revisions| - 1;
      VersionsOf(revisions[..k], id) + (if revisions[k].page == id then [revisions[k].version] else [])
  }

  function DataOf(revisions: seq<Revision>, id: nat): seq<Data> {
    if revisions == [] then []
    else
      var k := |revisions| - 1;
      DataOf(revisions[..k], id) + (if revisions[k].page == id then [revisions[k].data] else [])
  }

  // A page that was only created shows the newest revision with the defaults filled in; any other page
  // shows everything that its newest revision has.
  predicate Shows(p: Page, newest: Data) {
    if p.version == 1 then p.data == Defaults(newest) else Merge(p.data, newest) == p.data
  }

  predicate Newest(s: State, id: nat)
    requires id in s.pages
  {
    var ds := DataOf(s.revisions, id);
    ds != [] && Shows(s.pages[id], ds[|ds| - 1])
  }

  predicate History(s: State) {
    && (forall id | id in s.pages :: id < s.nextId && Numbered(s, id) && Newest(s, id))
    && (forall i | 0 <= i < |s.revisions| :: s.revisions[i].page < s.nextId)
  }

  lemma AppendRevision(revisions: seq<Revision>, r: Revision, id: nat)
    ensures VersionsOf(revisions + [r], id) == VersionsOf(revisions, id) + if r.page == id then [r.version] else []
    ensures DataOf(revisions + [r], id) == DataOf(revisions, id) + if r.page == id then [r.data] else []
  {
    assert (revisions + [r])[..|revisions|] == revisions;
  }

  lemma {:induction false} NoRevisions(revisions: seq<Revision>, id: nat)
    requires forall i | 0 <= i < |revisions| :: revisions[i].page != id
    ensures VersionsOf(revisions, id) == [] && DataOf(revisions, id) == []
  {
    if revisions != [] {
      NoRevisions(revisions[..|revisions| - 1], id);
    }
  }

  // One more version of a page, or its first.
  lemma WriteKeeps(s: State, id: nat, p: Page, d: Data, next: nat)
    requires History(s) && s.nextId <= next && id < next && Shows(p, d)
    requires p.version == if id in s.pages then s.pages[id].version + 1 else 1
    requires id !in s.pages ==> s.nextId <= id
    ensures History(State(s.pages[id := p], s.revisions + [Revision(id, p.version, d)], next))
  {
    var s' := State(s.pages[id := p], s.revisions + [Revision(id, p.version, d)], next);
    if id !in s.pages {
      NoRevisions(s.revisions, id);
    }
    forall j | j in s'.pages
      ensures Numbered(s', j) && Newest(s', j)
    {
      AppendRevision(s.revisions, Revision(id, p.version, d), j);
    }
  }

  lemma MergeShows(old_: Data, d: Data)
    ensures Merge(Merge(old_, d), d) == Merge(old_, d)
  {
  }

  lemma StepKeeps(s: State, a: Action)
    requires History(s)
    ensures History(Step(s, a).0)
  {
    hide VersionsOf, DataOf, FindRevision, SlugConflict, Merge, Defaults;
    match a
    case Create(d, status, accepted) =>
      if !SlugConflict(s.pages, d.slug, None) && accepted {
        WriteKeeps(s, s.nextId, Page(Defaults(d), status, 1), d, s.nextId + 1);
      }
    case Update(id, d, status, accepted) =>
      if id in s.pages && accepted {
        var p := s.pages[id];
        PageVersions(s, id);
        MergeShows(p.data, d);
        WriteKeeps(s, id, Page(Merge(p.data, d), if status.Some? then status.value else p.status, p.version + 1), d, s.nextId);
      }
    case Rollback(id, version, accepted) =>
      var r := FindRevision(s.revisions, id, version);
      if r.Some? && id in s.pages && accepted {
        var p, d := s.pages[id], s.revisions[r.value].data;
        PageVersions(s, id);
        MergeShows(p.data, d);
        WriteKeeps(s, id, p.(data := Merge(p.data, d), version := p.version + 1), d, s.nextId);
      }
    case _ =>
  }

  lemma PageVersions(s: State, id: nat)
    requires History(s) && id in s.pages
    ensures s.pages[id].version >= 1 && |DataOf(s.revisions, id)| == s.pages[id].version
  {
    SameLength(s.revisions, id);
    assert Numbered(s, id) && Newest(s, id);
  }

  lemma {:induction false} RunKeeps(actions: seq<Action>)
    ensures History(Run(EMPTY, actions))
  {
    if actions != [] {
      RunKeeps(actions[..|actions| - 1]);
      StepKeeps(Run(EMPTY, actions[..|actions| - 1]), actions[|actions| - 1]);
    }
  }

  // In every run: the revisions of a live page are numbered 1 .. n, with n the page's version; and when the
  // newest was written with all five fields, the page's data equal it, unless the page was only created,
  // with an empty page type: that one it shows as "page".
  lemma RevisionsFollowPage(actions: seq<Action>, id: nat)
    requires id in Run(EMPTY, actions).pages
    ensures var s := Run(EMPTY, actions);
      var p, ds := s.pages[id], DataOf(s.revisions, id);
      && VersionsOf(s.revisions, id) == seq(p.version, i => i + 1)
      && ds != [] && |ds| == p.version
      && var newest := ds[|ds| - 1];
         newest.Full() ==> (p.data == newest <==> p.version > 1 || newest.pageType != Some(""))
  {
    hide Run, Shows, Merge, Defaults;
    var s := Run(EMPTY, actions);
    RunKeeps(actions);
    FollowsPage(s, id);
    NewestShows(s, id);
    var ds := DataOf(s.revisions, id);
    hide History, VersionsOf, DataOf;
    FullShows(s.pages[id], ds[|ds| - 1]);
  }

  lemma FollowsPage(s: State, id: nat)
    requires History(s) && id in s.pages
    ensures VersionsOf(s.revisions, id) == seq(s.pages[id].version, i => i + 1)
  {
    assert Numbered(s, id);
  }

  lemma FullShows(p: Page, newest: Data)
    requires Shows(p, newest) && p.version >= 1
    ensures newest.Full() ==> (p.data == newest <==> p.version > 1 || newest.pageType != Some(""))
  {
  }

  // What the exception looks like.
  lemma EmptyPageTypeDiffers(s: State, d: Data, status: string)
    requires !SlugConflict(s.pages, d.slug, None) && d.pageType == Some("")
    ensures var s' := Step(s, Create(d, status, true)).0;
      var ds := DataOf(s'.revisions, s.nextId);
      && s.nextId in s'.pages && s'.pages[s.nextId].data.pageType == Some("page")
      && ds != [] && ds[|ds| - 1].pageType == Some("")
  {
    AppendRevision(s.revisions, Revision(s.nextId, 1, d), s.nextId);
  }

  lemma {:induction false} SameLength(revisions: seq<Revision>, id: nat)
    ensures |VersionsOf(revisions, id)| == |DataOf(revisions, id)|
  {
    if revisions != [] {
      SameLength(revisions[..|revisions| - 1], id);
    }
  }

  // ---------- rollback ----------

  lemma {:induction false} RevisionAt(revisions: seq<Revision>, id: nat, v: nat)
    requires 0 < v <= |VersionsOf(revisions, id)| && VersionsOf(revisions, id) == seq(|VersionsOf(revisions, id)|, i => i + 1)
    ensures FindRevision(revisions, id, v).Some?
    ensures |DataOf(revisions, id)| == |VersionsOf(revisions, id)|
    ensures revisions[FindRevision(revisions, id, v).value].data == DataOf(revisions, id)[v - 1]
  {
    SameLength(revisions, id);
    var k := |revisions| - 1;
    var before := revisions[..k];
    SameLength(before, id);
    var n := |VersionsOf(revisions, id)|;
    if revisions[k].page == id {
      assert VersionsOf(revisions, id)[n - 1] == revisions[k].version == n;
      assert VersionsOf(before, id) == VersionsOf(revisions, id)[..n - 1];
      if v < n {
        RevisionAt(before, id, v);
      } else {
        VersionsBelow(before, id, v);
      }
    } else {
      RevisionAt(before, id, v);
    }
  }

  // Versions 1 .. n only: n + 1 is not found.
  lemma {:induction false} VersionsBelow(revisions: seq<Revision>, id: nat, v: nat)
    requires forall i | 0 <= i < |VersionsOf(revisions, id)| :: VersionsOf(revisions, id)[i] != v
    ensures FindRevision(revisions, id, v).None?
  {
    if revisions != [] {
      var k := |revisions| - 1;
      var vs := VersionsOf(revisions, id);
      forall i | 0 <= i < |VersionsOf(revisions[..k], id)|
        ensures VersionsOf(revisions[..k], id)[i] != v
      {
        assert VersionsOf(revisions[..k], id)[i] == vs[i];
      }
      VersionsBelow(revisions[..k], id, v);
      if revisions[k].page == id {
        assert vs[|vs| - 1] == revisions[k].version;
      }
    }
  }

  // If the database takes the row, rolling back to any version the page has had succeeds, makes the page show that revision, and adds one
  // version; a revision with all five fields is restored exactly.
  lemma RollbackRestores(s: State, id: nat, v: nat)
    requires History(s) && id in s.pages && 1 <= v <= s.pages[id].version
    ensures var (s', r) := Step(s, Rollback(id, v, true));
      var ds := DataOf(s.revisions, id);
      && r == Ok && id in s'.pages && |ds| == s.pages[id].version
      && s'.pages[id].data == Merge(s.pages[id].data, ds[v - 1])
      && s'.pages[id].version == s.pages[id].version + 1
      && s'.pages[id].status == s.pages[id].status
      && (ds[v - 1].Full() ==> s'.pages[id].data == ds[v - 1])
      && DataOf(s'.revisions, id) == ds + [ds[v - 1]]
  {
    RevisionAt(s.revisions, id, v);
    var i := FindRevision(s.revisions, id, v).value;
    AppendRevision(s.revisions, Revision(id, s.pages[id].version + 1, s.revisions[i].data), id);
  }

  // Fields that the rollback to v changed and that the newest revision does not have.
  predicate Lost(page: Data, target: Data, newest: Data) {
    || (newest.title.None? && target.title.Some? && target.title != page.title)
    || (newest.slug.None? && target.slug.Some? && target.slug != page.slug)
    || (newest.pageType.None? && target.pageType.Some? && target.pageType != page.pageType)
    || (newest.content.None? && target.content.Some? && target.content != page.content)
    || (newest.seo.None? && target.seo.Some? && target.seo != page.seo)
  }

  // A rollback is undone by rolling back to the version before it, exactly if the newest revision had
  // every field that the rollback changed, and the page was not only created, with an empty page type.
  lemma RollbackUndone(s: State, id: nat, v: nat)
    requires History(s) && id in s.pages && 1 <= v <= s.pages[id].version
    ensures var n := s.pages[id].version;
      var ds := DataOf(s.revisions, id);
      var s1 := Step(s, Rollback(id, v, true)).0;
      var (s2, r) := Step(s1, Rollback(id, n, true));
      && r == Ok && id in s2.pages && s2.pages[id].version == n + 2 && |ds| == n
      && (s2.pages[id].data == s.pages[id].data
          <==> !Lost(s.pages[id].data, ds[v - 1], ds[n - 1]) && (n > 1 || ds[n - 1].pageType != Some("")))
      && (ds[n - 1].Full() ==> !Lost(s.pages[id].data, ds[v - 1], ds[n - 1]))
  {
    hide History, Step, DataOf, Merge, Lost, Defaults;
    var ds, n := DataOf(s.revisions, id), s.pages[id].version;
    NewestShows(s, id);
    RollbackRestores(s, id, v);
    StepKeeps(s, Rollback(id, v, true));
    var s1 := Step(s, Rollback(id, v, true)).0;
    RollbackRestores(s1, id, n);
    assert (ds + [ds[v - 1]])[n - 1] == ds[n - 1];
    Undo(s.pages[id].data, ds[v - 1], ds[n - 1]);
    if n == 1 {
      UndoCreated(ds[0]);
    }
  }

  lemma NewestShows(s: State, id: nat)
    requires History(s) && id in s.pages
    ensures var ds := DataOf(s.revisions, id);
      ds != [] && |ds| == s.pages[id].version && Shows(s.pages[id], ds[|ds| - 1])
  {
    SameLength(s.revisions, id);
    assert Numbered(s, id) && Newest(s, id);
  }

  lemma Undo(page: Data, target: Data, newest: Data)
    ensures Merge(page, newest) == page ==> (Merge(Merge(page, target), newest) == page <==> !Lost(page, target, newest))
    ensures newest.Full() ==> !Lost(page, target, newest)
  {
  }

  lemma UndoCreated(d: Data)
    ensures Merge(Merge(Defaults(d), d), d) == Defaults(d) <==> d.pageType != Some("")
    ensures !Lost(Defaults(d), d, d)
  {
  }

  // ---------- what each request does ----------

  // Some page other than this one has the slug; if the request has none, any other page counts.
  ghost predicate SlugUsed(s: State, slug: Option<string>, self: Option<nat>) {
    exists id :: id in s.pages && Some(id) != self && (slug == None || slug == s.pages[id].data.slug)
  }

  // A field of the request, or else the old one.
  predicate Taken(now: Option<string>, asked: Option<string>, before: Option<string>) {
    (asked.Some? ==> now == asked) && (asked.None? ==> now == before)
  }

  predicate AllTaken(now: Data, asked: Data, before: Data) {
    && Taken(now.title, asked.title, before.title) && Taken(now.slug, asked.slug, before.slug)
    && Taken(now.pageType, asked.pageType, before.pageType) && Taken(now.content, asked.content, before.content)
    && Taken(now.seo, asked.seo, before.seo)
  }

  ghost predicate OthersSame(s: State, s': State, id: nat) {
    s'.pages.Keys == s.pages.Keys + {id} && forall j | j in s.pages && j != id :: s'.pages[j] == s.pages[j]
  }

  // A new page has the fields asked for, and where there are none the type "page", no blocks and no meta
  // data; its first revision is what was asked for.
  lemma CreatesExactly(s: State, d: Data, status: string, accepted: bool)
    ensures var (s', r) := Step(s, Create(d, status, accepted));
      && (r == SlugTaken <==> SlugUsed(s, d.slug, None))
      && (r == Crash <==> r != SlugTaken && !accepted)
      && (r != SlugTaken && r != Crash ==> r == Created(s.nextId))
      && (!r.Created? ==> s' == s)
      && (r.Created? ==>
            var id := s.nextId;
            && OthersSame(s, s', id) && s'.nextId == id + 1 && s'.revisions == s.revisions + [Revision(id, 1, d)]
            && var p := s'.pages[id];
               && p.status == status && p.version == 1 && p.data.title == d.title && p.data.slug == d.slug
               && Taken(p.data.content, d.content, Some("[]")) && Taken(p.data.seo, d.seo, Some("{}"))
               && Taken(p.data.pageType, if d.pageType == Some("") then None else d.pageType, Some("page")))
  {
  }

  // An update needs a page, and a slug that no other page has unless it is the page's own.
  lemma UpdatesExactly(s: State, id: nat, d: Data, status: Option<string>, accepted: bool)
    ensures var (s', r) := Step(s, Update(id, d, status, accepted));
      && (r == NotFound <==> id !in s.pages)
      && (r == SlugTaken <==> id in s.pages && d.slug != s.pages[id].data.slug && SlugUsed(s, d.slug, Some(id)))
      && (r == Crash <==> r != NotFound && r != SlugTaken && !accepted)
      && (r == NotFound || r == SlugTaken || r == Crash || r == Ok) && (r != Ok ==> s' == s)
      && (r == Ok ==>
            && OthersSame(s, s', id) && s'.nextId == s.nextId
            && var p, p' := s.pages[id], s'.pages[id];
               && AllTaken(p'.data, d, p.data) && p'.version == p.version + 1
               && p'.status == (match status case Some(new_) => new_ case None => p.status)
               && s'.revisions == s.revisions + [Revision(id, p.version + 1, d)])
  {
  }

  // A rollback needs the revision, the page and the database.
  lemma RollsBackExactly(s: State, id: nat, version: nat, accepted: bool)
    ensures var (s', r) := Step(s, Rollback(id, version, accepted));
      && (r == NotFound <==> forall x :: x in s.revisions ==> !(x.page == id && x.version == version))
      && (r == Crash <==> r != NotFound && !(id in s.pages && accepted))
      && (r == NotFound || r == Crash || r == Ok) && (r != Ok ==> s' == s)
      && (r == Ok ==>
            && OthersSame(s, s', id) && s'.nextId == s.nextId && s'.pages[id].status == s.pages[id].status
            && s'.pages[id].version == s.pages[id].version + 1
            && exists x :: x in s.revisions && x.page == id && x.version == version
                 && AllTaken(s'.pages[id].data, x.data, s.pages[id].data)
                 && s'.revisions == s.revisions + [Revision(id, s.pages[id].version + 1, x.data)])
  {
    var found := FindRevision(s.revisions, id, version);
    if found.Some? {
      assert s.revisions[found.value] in s.revisions;
    }
  }

  // Deleting takes the page away and leaves its revisions; a change of status changes the status.
  lemma DeletesAndSetsExactly(s: State, id: nat, status: string)
    ensures var (s', r) := Step(s, Delete(id));
      r == Ok && s' == s.(pages := s'.pages) && s'.pages.Keys == s.pages.Keys - {id} && forall j | j in s'.pages :: s'.pages[j] == s.pages[j]
    ensures var (s', r) := Step(s, SetStatus(id, status));
      && r == Ok && s' == s.(pages := s'.pages) && s'.pages.Keys == s.pages.Keys
      && (forall j | j in s.pages && j != id :: s'.pages[j] == s.pages[j])
      && (id in s.pages ==> var p, p' := s.pages[id], s'.pages[id];
            p'.status == status && p'.data == p.data && p'.version == p.version)
  {
  }

  // Requests that say nothing about the status of this page.
  predicate LeavesStatus(a: Action, id: nat) {
    match a
    case Update(i, _, newStatus, _) => i != id || newStatus.None?
    case Delete(i) => i != id
    case SetStatus(i, _) => i != id
    case _ => true
  }

  lemma StepLeavesStatus(s: State, a: Action, id: nat)
    requires History(s) && id in s.pages && LeavesStatus(a, id)
    ensures id in Step(s, a).0.pages && Step(s, a).0.pages[id].status == s.pages[id].status
  {
    assert id < s.nextId;
    hide FindRevision, SlugConflict, Merge, Defaults, VersionsOf, DataOf, History;
  }

  // A status that was set stays, through updates, rollbacks and whatever happens to other pages, until it
  // is set again.
  lemma {:induction false} StatusStays(s: State, id: nat, status: string, after: seq<Action>)
    requires History(s) && id in s.pages && forall a | a in after :: LeavesStatus(a, id)
    ensures var s' := Run(Step(s, SetStatus(id, status)).0, after);
      && History(s') && id in s'.pages && s'.pages[id].status == status
  {
    hide History;
    StepKeeps(s, SetStatus(id, status));
    if after != [] {
      var before, a := after[..|after| - 1], after[|after| - 1];
      assert a in after && forall b | b in before :: b in after;
      hide LeavesStatus, Step;
      StatusStays(s, id, status, before);
      var mid := Run(Step(s, SetStatus(id, status)).0, before);
      StepKeeps(mid, a);
      StepLeavesStatus(mid, a, id);
    }
  }
}
