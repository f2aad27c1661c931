/**
 The caches of public/sw.js: requests of four kinds, each interleaved at its awaits with every other
 request, with background refreshes and with deletions of whole caches.  A cache handle obtained by
 caches.open keeps pointing at its store after caches.delete, as in the Service Workers
 specification, so a late put may land in a store that nobody can see.  caches.match searches the
 named caches in the order of their creation (section 5.5.1 of the W3C Service Workers specification).
 */
module ServiceWorker {
  import opened Wrappers
  import opened Text

  // ---------- requests ----------

  datatype Url = Url(protocol: string, hostname: string, pathname: string, query: string)
  datatype Request = Request(verb: string, url: Url, destination: string, mode: string)
  datatype Response = Response(ok: bool, body: nat)
  datatype Kind = Image | Api | Html | Static | Dynamic

  predicate EndsWith(s: string, suffix: string) {
    |suffix| <= |s| && s[|s| - |suffix|..] == suffix
  }

  predicate Includes(s: string, part: string) {
    exists i | 0 <= i <= |s| :: part <= s[i..]
  }

  const IMAGE_SUFFIXES := [".jpg", ".jpeg", ".png", ".gif", ".webp", ".svg", ".ico"]
  const STATIC_SUFFIXES := [".js", ".css", ".woff", ".woff2", ".ttf", ".eot", ".html"]

  predicate ImageUrl(url: Url) {
    || (exists x | x in IMAGE_SUFFIXES :: EndsWith(Lower(url.pathname), x))
    || Includes(url.hostname, "pexels.com") || Includes(url.hostname, "images.unsplash.com")
  }

  predicate StaticUrl(url: Url) {
    || (exists x | x in STATIC_SUFFIXES :: EndsWith(Lower(url.pathname), x))
    || url.pathname == "/" || EndsWith(url.pathname, ".json")
  }

  function Classify(r: Request): Kind {
    if r.destination == "image" || ImageUrl(r.url) then Image
    else if "/api/" <= r.url.pathname then Api
    else if StaticUrl(r.url) then
      if r.url.pathname == "/" || EndsWith(r.url.pathname, ".html") then Html else Static
    else Dynamic
  }

  // Requests the fetch handler leaves to the browser.
  predicate Handled(r: Request) { r.verb == "GET" && "http" <= r.url.protocol }

  // Two requests for one URL are classified alike unless exactly one of them asks for an image by
  // destination and the URL does not say so itself.
  lemma ClassifiedAlike(r: Request, q: Request)
    requires r.url == q.url
    ensures Classify(r) == Classify(q)
            <==> ImageUrl(r.url) || (r.destination == "image" <==> q.destination == "image")
  {
  }

  // ---------- caches ----------

  datatype Name = Mobile | StaticAssets | Images | ApiData | Old(version: nat)
  datatype Named = Named(name: Name, store: nat)

  function TargetCache(k: Kind): Name {
    match k
    case Image => Images
    case Api => ApiData
    case Html => StaticAssets
    case Static => StaticAssets
    case Dynamic => Mobile
  }

  type Store = map<Url, Response>

  // The named caches in order of creation, and every store ever created, still named or not.
  datatype Caches = Caches(names: seq<Named>, stores: seq<Store>)

  function Lookup(store: Store, url: Url): Option<Response> {
    if url in store then Some(store[url]) else None
  }

  function Find(names: seq<Named>, name: Name): (r: Option<nat>)
    ensures r.Some? ==> exists n :: n in names && n.name == name && n.store == r.value
    ensures r.None? ==> forall n | n in names :: n.name != name
  {
    if names == [] then None
    else if names[0].name == name then Some(names[0].store)
    else Find(names[1..], name)
  }

  function MatchIn(names: seq<Named>, stores: seq<Store>, url: Url): Option<Response>
    requires forall n | n in names :: n.store < |stores|
  {
    if names == [] then None
    else if url in stores[names[0].store] then Some(stores[names[0].store][url])
    else MatchIn(names[1..], stores, url)
  }

  predicate Unlike(m: Named, n: Named) { m.name != n.name && m.store != n.store }

  predicate Distinct(names: seq<Named>) {
    names != [] ==> (forall n | n in names[1..] :: Unlike(names[0], n)) && Distinct(names[1..])
  }

  predicate WellFormed(c: Caches) {
    (forall n | n in c.names :: n.store < |c.stores|) && Distinct(c.names)
  }

  // caches.match(url)
  function Match(c: Caches, url: Url): Option<Response>
    requires WellFormed(c)
  {
    MatchIn(c.names, c.stores, url)
  }

  // caches.open(name): creates the cache, last, if it is missing.
  function Open(c: Caches, name: Name): (Caches, nat) {
    match Find(c.names, name)
    case Some(id) => (c, id)
    case None => (Caches(c.names + [Named(name, |c.stores|)], c.stores + [map[]]), |c.stores|)
  }

  function Without(names: seq<Named>, name: Name): (r: seq<Named>)
    ensures forall n :: n in r <==> n in names && n.name != name
  {
    if names == [] then []
    else (if names[0].name == name then [] else [names[0]]) + Without(names[1..], name)
  }

  // caches.delete(name): the store itself survives behind the handles that are still out.
  function Delete(c: Caches, name: Name): Caches { c.(names := Without(c.names, name)) }

  function Put(c: Caches, id: nat, url: Url, r: Response): Caches
    requires id < |c.stores|
  {
    c.(stores := c.stores[id := c.stores[id][url := r]])
  }

  // ---------- tasks ----------

  datatype Answer =
    | FromNetwork(r: Response)
    | FromCache(url: Url, r: Response)
    | Offline
    | NetworkError

  datatype Fetch = NotYet | Got(r: Response) | Failed

  datatype Phase =
    | Looking
    | Fetching
    | Opening(r: Response)
    | Putting(store: nat, r: Response)
    | FallingBack
    | LastResort
    | Done

  datatype Task = Task(req: Request, phase: Phase, fetch: Fetch, answer: Option<Answer>)

  // What happened to the caches, for the record: puts that reached a named cache, and deletions.
  datatype Event = Stored(url: Url, name: Name, r: Response) | Deleted(name: Name)

  datatype State = State(active: bool, caches: Caches, tasks: map<nat, Task>, log: seq<Event>)

  datatype Action =
    | Install(manifest: Response)
    | Activate
    | Begin(id: nat, req: Request)
    | Look(id: nat)
    | FetchEnds(id: nat, r: Option<Response>)
    | OpenCache(id: nat)
    | PutEnds(id: nat, stored: bool)
    | FallBack(id: nat)
    | Clear(name: Name)

  const ORIGIN_PROTOCOL := "https:"
  function Local(host: string, path: string): Url { Url(ORIGIN_PROTOCOL, host, path, "") }
  const HOST := "kayad"
  const MANIFEST := Local(HOST, "/manifest.webmanifest")
  const PLACEHOLDER := Local(HOST, "/placeholder-car.svg")
  const INDEX := Local(HOST, "/index.html")

  function Enter(k: Kind): Phase {
    match k
    case Image => Looking
    case Static => Looking
    case Dynamic => Looking
    case Api => Fetching
    case Html => Fetching
  }

  // The first await of the cache-first kinds: a hit is served at once; images and dynamic requests
  // then refresh in the background.
  function LookStep(c: Caches, t: Task): Task
    requires WellFormed(c)
  {
    match Match(c, t.req.url)
    case Some(r) =>
      t.(answer := Some(FromCache(t.req.url, r)), phase := if Classify(t.req) == Static then Done else Fetching)
    case None => t.(phase := Fetching)
  }

  function FetchStep(t: Task, r: Option<Response>): Task {
    match r
    case Some(r) =>
      if r.ok then t.(fetch := Got(r), phase := Opening(r))
      else t.(fetch := Got(r), phase := Done, answer := if t.answer.None? then Some(FromNetwork(r)) else t.answer)
    case None => t.(fetch := Failed, phase := if t.answer.None? then FallingBack else Done)
  }

  function FromCacheOr(c: Caches, url: Url, other: Answer): Answer
    requires WellFormed(c)
  {
    match Match(c, url)
    case Some(r) => FromCache(url, r)
    case None => other
  }

  // What is served when the fetch failed and nothing has been served yet.
  function FallBackStep(c: Caches, t: Task): Task
    requires WellFormed(c)
  {
    match Classify(t.req)
    case Image => t.(phase := Done, answer := Some(FromCacheOr(c, PLACEHOLDER, NetworkError)))
    case Api => t.(phase := Done, answer := Some(FromCacheOr(c, t.req.url, Offline)))
    case Html =>
      if Match(c, t.req.url).Some? then t.(phase := Done, answer := Some(FromCacheOr(c, t.req.url, NetworkError)))
      else t.(phase := LastResort)
    case Static => t.(phase := Done, answer := Some(NetworkError))
    case Dynamic =>
      if t.req.mode == "navigate" then t.(phase := LastResort)
      else t.(phase := Done, answer := Some(NetworkError))
  }

  function SetTask(s: State, id: nat, t: Task): State { s.(tasks := s.tasks[id := t]) }

  predicate Current(n: Name) { !n.Old? }

  function DropOld(names: seq<Named>): (r: seq<Named>)
    ensures forall n :: n in r <==> n in names && Current(n.name)
  {
    if names == [] then []
    else (if Current(names[0].name) then [names[0]] else []) + DropOld(names[1..])
  }

  function TaskStep(s: State, a: Action): State
    requires WellFormed(s.caches)
    requires a.Look? || a.FetchEnds? || a.OpenCache? || a.PutEnds? || a.FallBack?
    requires a.id in s.tasks
  {
    var t := s.tasks[a.id];
    match a
    case Look(id) => if t.phase.Looking? then SetTask(s, id, LookStep(s.caches, t)) else s
    case FetchEnds(id, r) => if t.phase.Fetching? then SetTask(s, id, FetchStep(t, r)) else s
    case OpenCache(id) =>
      if !t.phase.Opening? then s
      else
        var (c, store) := Open(s.caches, TargetCache(Classify(t.req)));
        var answer := if t.answer.None? then Some(FromNetwork(t.phase.r)) else t.answer;
        SetTask(s, id, t.(phase := Putting(store, t.phase.r), answer := answer)).(caches := c)
    case PutEnds(id, stored) =>
      if !(t.phase.Putting? && t.phase.store < |s.caches.stores|) then s
      else
        var s' := SetTask(s, id, t.(phase := Done));
        if !stored then s'
        else
          var name := TargetCache(Classify(t.req));
          var visible := Find(s.caches.names, name) == Some(t.phase.store);
          s'.(caches := Put(s.caches, t.phase.store, t.req.url, t.phase.r),
              log := if visible then s.log + [Stored(t.req.url, name, t.phase.r)] else s.log)
    case FallBack(id) =>
      if t.phase.FallingBack? then SetTask(s, id, FallBackStep(s.caches, t))
      else if t.phase.LastResort? then
        SetTask(s, id, t.(phase := Done, answer := Some(FromCacheOr(s.caches, INDEX, NetworkError))))
      else s
  }

  // An action that is not enabled leaves the state alone.
  function Step(s: State, a: Action): State
    requires WellFormed(s.caches)
  {
    match a
    case Install(manifest) =>
      if s.active || !manifest.ok then s
      else
        var (c, store) := Open(s.caches, StaticAssets);
        if store < |c.stores|
        then s.(caches := Put(c, store, MANIFEST, manifest), log := s.log + [Stored(MANIFEST, StaticAssets, manifest)])
        else s
    case Activate =>
      if s.active then s else s.(active := true, caches := s.caches.(names := DropOld(s.caches.names)))
    case Begin(id, req) =>
      if !s.active || id in s.tasks || !Handled(req) then s
      else SetTask(s, id, Task(req, Enter(Classify(req)), NotYet, None))
    case Clear(name) => s.(caches := Delete(s.caches, name), log := s.log + [Deleted(name)])
    case _ => if a.id in s.tasks then TaskStep(s, a) else s
  }

  function Run(s: State, actions: seq<Action>): (r: State)
    requires Sound(s)
    ensures Sound(r)
    decreases |actions|
  {
    if actions == [] then s
    else
      StepSound(s, actions[0]);
      Run(Step(s, actions[0]), actions[1..])
  }

  // The browser starts with at most the caches of older versions.
  predicate Initial(s: State) {
    && WellFormed(s.caches) && (forall n | n in s.caches.names :: n.name.Old?)
    && !s.active && s.tasks == map[] && s.log == []
  }

  // ---------- what holds in every state ----------

  // How far a task has come says what it fetched and served.
  predicate Honest(t: Task) {
    var firstNetwork := Classify(t.req) == Api || Classify(t.req) == Html;
    && (t.answer.Some? && t.answer.value.FromNetwork? ==> t.fetch == Got(t.answer.value.r))
    && (firstNetwork && t.answer.Some? && !t.answer.value.FromNetwork? ==> t.fetch == Failed)
    && match t.phase
       case Looking => t.fetch == NotYet && t.answer.None? && !firstNetwork
       case Fetching => t.fetch == NotYet && (firstNetwork ==> t.answer.None?)
       case Opening(r) => t.fetch == Got(r) && r.ok && (firstNetwork ==> t.answer.None?)
       case Putting(_, r) => t.fetch == Got(r) && r.ok && t.answer.Some?
       case FallingBack => t.fetch == Failed && t.answer.None?
       case LastResort => t.fetch == Failed && t.answer.None?
       case Done => t.answer.Some?
  }

  // A handle belongs to the cache its task opened, if to any.
  predicate HandleOf(c: Caches, t: Task) {
    t.phase.Putting? ==>
      && t.phase.store < |c.stores|
      && forall n | n in c.names && n.store == t.phase.store :: n.name == TargetCache(Classify(t.req))
  }

  predicate Sound(s: State) {
    && WellFormed(s.caches)
    && (!s.active ==> s.tasks == map[])
    && (s.active ==> forall n | n in s.caches.names :: Current(n.name))
    && (forall id | id in s.tasks :: Honest(s.tasks[id]) && HandleOf(s.caches, s.tasks[id]))
    && (forall e | e in s.log && e.Stored? :: e.r.ok)
  }

  lemma {:induction false} WithoutKeeps(names: seq<Named>, name: Name)
    requires Distinct(names)
    ensures Distinct(Without(names, name))
  {
    if names != [] {
      WithoutKeeps(names[1..], name);
      var rest := Without(names[1..], name);
      if names[0].name == name {
        assert Without(names, name) == rest;
      } else {
        assert Without(names, name)[1..] == rest;
      }
    }
  }

  lemma {:induction false} DropOldKeeps(names: seq<Named>)
    requires Distinct(names)
    ensures Distinct(DropOld(names))
  {
    if names != [] {
      DropOldKeeps(names[1..]);
      var rest := DropOld(names[1..]);
      if Current(names[0].name) {
        assert DropOld(names)[1..] == rest;
      } else {
        assert DropOld(names) == rest;
      }
    }
  }

  lemma OpenKeeps(c: Caches, name: Name)
    requires WellFormed(c)
    ensures var (c', id) := Open(c, name);
      && WellFormed(c') && id < |c'.stores| && c.stores <= c'.stores && Find(c'.names, name) == Some(id)
      && (forall n | n in c'.names :: n in c.names || n == Named(name, |c.stores|))
      && (forall n | n in c'.names && n.store == id :: n.name == name)
  {
    var (c', id) := Open(c, name);
    if Find(c.names, name).None? {
      var n := Named(name, |c.stores|);
      assert n in c'.names;
      FindAppend(c.names, n);
      DistinctAppend(c.names, n);
    } else {
      FindUnique(c.names, name);
    }
  }

  lemma {:induction false} DistinctAppend(names: seq<Named>, n: Named)
    requires Distinct(names) && forall m | m in names :: Unlike(m, n)
    ensures Distinct(names + [n])
  {
    if names != [] {
      assert (names + [n])[1..] == names[1..] + [n];
      DistinctAppend(names[1..], n);
    }
  }

  lemma {:induction false} FindAppend(names: seq<Named>, n: Named)
    ensures Find(names + [n], n.name) == if Find(names, n.name).Some? then Find(names, n.name) else Some(n.store)
  {
    if names != [] {
      assert (names + [n])[1..] == names[1..] + [n];
      FindAppend(names[1..], n);
    }
  }

  lemma {:induction false} FindUnique(names: seq<Named>, name: Name)
    requires Distinct(names) && Find(names, name).Some?
    ensures forall n | n in names && n.store == Find(names, name).value :: n.name == name
  {
    if names[0].name != name {
      FindUnique(names[1..], name);
    }
    forall n | n in names && n.store == Find(names, name).value
      ensures n.name == name
    {
      assert n == names[0] || n in names[1..];
    }
  }

  lemma LookHonest(c: Caches, t: Task)
    requires WellFormed(c) && Honest(t) && t.phase.Looking?
    ensures Honest(LookStep(c, t)) && !LookStep(c, t).phase.Putting?
  {
  }

  lemma FetchHonest(t: Task, r: Option<Response>)
    requires Honest(t) && t.phase.Fetching?
    ensures Honest(FetchStep(t, r)) && !FetchStep(t, r).phase.Putting?
  {
  }

  lemma FallBackHonest(c: Caches, t: Task)
    requires WellFormed(c) && Honest(t) && t.phase.FallingBack?
    ensures Honest(FallBackStep(c, t)) && !FallBackStep(c, t).phase.Putting?
  {
  }

  lemma OpenHonest(t: Task, store: nat)
    requires Honest(t) && t.phase.Opening?
    ensures Honest(t.(phase := Putting(store, t.phase.r), answer := if t.answer.None? then Some(FromNetwork(t.phase.r)) else t.answer))
  {
    hide Classify;
  }

  lemma PutHonest(t: Task)
    requires Honest(t) && t.phase.Putting?
    ensures Honest(t.(phase := Done))
  {
    hide Classify;
  }

  lemma SetTaskSound(s: State, id: nat, t: Task)
    requires Sound(s) && id in s.tasks && Honest(t) && HandleOf(s.caches, t)
    ensures Sound(SetTask(s, id, t))
  {
    hide Honest, HandleOf, WellFormed;
  }

  // More names, all for new stores, leave the handles that are out as they were.
  lemma NewCachesSound(s: State, c: Caches)
    requires Sound(s) && WellFormed(c) && |s.caches.stores| <= |c.stores|
    requires forall n | n in c.names :: n in s.caches.names || (n.store >= |s.caches.stores| && Current(n.name))
    ensures Sound(s.(caches := c))
  {
    hide Honest, WellFormed, Classify;
  }

  lemma OpenSound(s: State, a: Action)
    requires Sound(s) && a.OpenCache? && a.id in s.tasks
    ensures Sound(TaskStep(s, a))
  {
    hide Honest, WellFormed, Classify, Find, Sound;
    var t := s.tasks[a.id];
    SoundParts(s, a.id);
    if t.phase.Opening? {
      var name := TargetCache(Classify(t.req));
      var (c, store) := Open(s.caches, name);
      OpenKeeps(s.caches, name);
      NewCachesSound(s, c);
      OpenHonest(t, store);
      var t' := t.(phase := Putting(store, t.phase.r), answer := if t.answer.None? then Some(FromNetwork(t.phase.r)) else t.answer);
      SetTaskSound(s.(caches := c), a.id, t');
    }
  }

  lemma SoundParts(s: State, id: nat)
    requires Sound(s) && id in s.tasks
    ensures WellFormed(s.caches) && Honest(s.tasks[id]) && HandleOf(s.caches, s.tasks[id])
  {
  }

  lemma PutSound(s: State, a: Action)
    requires Sound(s) && a.PutEnds? && a.id in s.tasks
    ensures Sound(TaskStep(s, a))
  {
    hide Classify, Find, Distinct;
    var t := s.tasks[a.id];
    if t.phase.Putting? {
      PutHonest(t);
      SetTaskSound(s, a.id, t.(phase := Done));
      hide Honest;
    }
  }

  lemma QuietSound(s: State, a: Action)
    requires Sound(s) && (a.Look? || a.FetchEnds? || a.FallBack?) && a.id in s.tasks
    ensures Sound(TaskStep(s, a))
  {
    var t := s.tasks[a.id];
    match a
    case Look(_) =>
      if t.phase.Looking? {
        LookHonest(s.caches, t);
        hide Sound, Honest, LookStep;
        SetTaskSound(s, a.id, LookStep(s.caches, t));
      }
    case FetchEnds(_, r) =>
      if t.phase.Fetching? {
        FetchHonest(t, r);
        hide Sound, Honest, FetchStep;
        SetTaskSound(s, a.id, FetchStep(t, r));
      }
    case FallBack(_) =>
      if t.phase.FallingBack? {
        FallBackHonest(s.caches, t);
        hide Sound, Honest, FallBackStep;
        SetTaskSound(s, a.id, FallBackStep(s.caches, t));
      } else if t.phase.LastResort? {
        LastHonest(s.caches, t);
        hide Sound, Honest, FromCacheOr;
        SetTaskSound(s, a.id, t.(phase := Done, answer := Some(FromCacheOr(s.caches, INDEX, NetworkError))));
      }
  }

  lemma LastHonest(c: Caches, t: Task)
    requires WellFormed(c) && Honest(t) && t.phase.LastResort?
    ensures Honest(t.(phase := Done, answer := Some(FromCacheOr(c, INDEX, NetworkError))))
  {
    hide Classify, Match;
  }

  lemma TaskSound(s: State, a: Action)
    requires Sound(s)
    requires a.Look? || a.FetchEnds? || a.OpenCache? || a.PutEnds? || a.FallBack?
    requires a.id in s.tasks
    ensures Sound(TaskStep(s, a))
  {
    match a
    case OpenCache(_) => OpenSound(s, a);
    case PutEnds(_, _) => PutSound(s, a);
    case _ => QuietSound(s, a);
  }

  lemma StepSound(s: State, a: Action)
    requires Sound(s)
    ensures Sound(Step(s, a))
  {
    match a
    case Install(_) => OpenKeeps(s.caches, StaticAssets);
    case Activate => DropOldKeeps(s.caches.names);
    case Clear(name) => WithoutKeeps(s.caches.names, name);
    case Begin(_, _) =>
    case _ => if a.id in s.tasks { TaskSound(s, a); }
  }

  // ---------- one map instead of four caches ----------

  // The last response stored for url since the cache called `home` was last deleted.
  function Latest(log: seq<Event>, url: Url, home: Name): Option<Response> {
    if log == [] then None
    else
      match log[|log| - 1]
      case Stored(u, _, r) => if u == url then Some(r) else Latest(log[..|log| - 1], url, home)
      case Deleted(name) => if name == home then None else Latest(log[..|log| - 1], url, home)
  }

  lemma LatestAppend(log: seq<Event>, e: Event, url: Url, home: Name)
    ensures Latest(log + [e], url, home)
         == match e
            case Stored(u, _, r) => if u == url then Some(r) else Latest(log, url, home)
            case Deleted(name) => if name == home then None else Latest(log, url, home)
  {
    assert (log + [e])[..|log|] == log;
  }

  // Every request for url goes to the cache called home.
  predicate Alike(actions: seq<Action>, url: Url, home: Name) {
    forall a | a in actions && a.Begin? && a.req.url == url :: TargetCache(Classify(a.req)) == home
  }

  // No other named cache knows the url, and home knows its latest response.
  predicate Agrees(s: State, url: Url, home: Name) {
    && (forall id | id in s.tasks && s.tasks[id].req.url == url :: TargetCache(Classify(s.tasks[id].req)) == home)
    && (forall n | n in s.caches.names && n.name != home && Current(n.name) ::
          n.store < |s.caches.stores| && url !in s.caches.stores[n.store])
    && Latest(s.log, url, home)
       == (match Find(s.caches.names, home)
           case Some(id) => if id < |s.caches.stores| then Lookup(s.caches.stores[id], url) else None
           case None => None)
  }

  lemma {:induction false} FindWithout(names: seq<Named>, name: Name, home: Name)
    ensures Find(Without(names, name), home) == if name == home then None else Find(names, home)
  {
    if names != [] {
      FindWithout(names[1..], name, home);
      var rest := Without(names[1..], name);
      if names[0].name == name {
        assert Without(names, name) == rest;
      } else {
        assert Without(names, name)[1..] == rest;
      }
    }
  }

  lemma {:induction false} FindDropOld(names: seq<Named>, home: Name)
    requires Current(home)
    ensures Find(DropOld(names), home) == Find(names, home)
  {
    if names != [] {
      FindDropOld(names[1..], home);
      var rest := DropOld(names[1..]);
      if Current(names[0].name) {
        assert DropOld(names)[1..] == rest;
      } else {
        assert DropOld(names) == rest;
      }
    }
  }

  lemma {:induction false} FindOther(names: seq<Named>, n: Named, home: Name)
    requires n.name != home
    ensures Find(names + [n], home) == Find(names, home)
  {
    if names != [] {
      assert (names + [n])[1..] == names[1..] + [n];
      FindOther(names[1..], n, home);
    }
  }

  lemma OpenFinds(c: Caches, name: Name, home: Name)
    requires WellFormed(c)
    ensures var c' := Open(c, name).0;
      Find(c'.names, home) == if name == home && Find(c.names, home).None? then Some(|c.stores|) else Find(c.names, home)
  {
    var n := Named(name, |c.stores|);
    FindAppend(c.names, n);
    if name != home {
      FindOther(c.names, n, home);
    }
  }

  lemma OpenAgrees(s: State, url: Url, home: Name, name: Name)
    requires Sound(s) && Agrees(s, url, home) && Current(home)
    ensures Agrees(s.(caches := Open(s.caches, name).0), url, home)
  {
    hide Honest, HandleOf, Find, Latest, Classify, Distinct;
    OpenKeeps(s.caches, name);
    OpenFinds(s.caches, name, home);
    hide Sound;
    var c := Open(s.caches, name).0;
    assert |s.caches.stores| < |c.stores| ==> c.stores[|s.caches.stores|] == map[];
  }

  // A put leaves alone what caches other than the task's know about url.
  lemma PutElsewhere(c: Caches, t: Task, url: Url, home: Name, n: Named)
    requires WellFormed(c) && t.phase.Putting? && HandleOf(c, t) && n in c.names && n.name != home
    requires t.req.url == url ==> TargetCache(Classify(t.req)) == home
    ensures var c' := Put(c, t.phase.store, t.req.url, t.phase.r);
      n.store < |c'.stores| && (url in c'.stores[n.store] <==> url in c.stores[n.store])
  {
    hide Classify, Distinct;
  }

  // And home learns the response exactly if the handle is still home's.
  lemma PutHome(c: Caches, t: Task, url: Url, home: Name)
    requires WellFormed(c) && t.phase.Putting? && HandleOf(c, t) && Find(c.names, home).Some?
    requires t.req.url == url ==> TargetCache(Classify(t.req)) == home
    ensures var c' := Put(c, t.phase.store, t.req.url, t.phase.r);
      var id := Find(c.names, home).value;
      && id < |c.stores| && id < |c'.stores|
      && Lookup(c'.stores[id], url)
         == if t.req.url == url && id == t.phase.store then Some(t.phase.r) else Lookup(c.stores[id], url)
  {
    hide Classify, Distinct;
    FindUnique(c.names, home);
  }

  lemma PutAgrees(s: State, a: Action, url: Url, home: Name)
    requires Sound(s) && Agrees(s, url, home) && Current(home)
    requires a.PutEnds? && a.id in s.tasks
    ensures Agrees(TaskStep(s, a), url, home)
  {
    var t := s.tasks[a.id];
    SoundParts(s, a.id);
    hide Honest, Classify, Find, Put, Sound, Agrees, HandleOf, WellFormed;
    if t.phase.Putting? && t.phase.store < |s.caches.stores| && a.stored {
      PutState(s, a);
      hide TaskStep;
      TaskOnlyAgrees(s, a.id, t.(phase := Done), url, home);
      StoresAgree(SetTask(s, a.id, t.(phase := Done)), t, url, home);
    } else {
      TaskOnlyAgrees(s, a.id, t.(phase := Done), url, home);
    }
  }

  // A put, and the record of it if home can see it, keep the agreement.
  lemma StoresAgree(s: State, t: Task, url: Url, home: Name)
    requires WellFormed(s.caches) && Agrees(s, url, home) && Current(home)
    requires t.phase.Putting? && HandleOf(s.caches, t) && (t.req.url == url ==> TargetCache(Classify(t.req)) == home)
    ensures t.phase.store < |s.caches.stores|
    ensures var name := TargetCache(Classify(t.req));
      Agrees(s.(caches := Put(s.caches, t.phase.store, t.req.url, t.phase.r),
                log := s.log + if Find(s.caches.names, name) == Some(t.phase.store) then [Stored(t.req.url, name, t.phase.r)] else []),
             url, home)
  {
    hide Classify, Distinct, Latest, Find;
    LatestAppend(s.log, Stored(t.req.url, TargetCache(Classify(t.req)), t.phase.r), url, home);
    assert s.log + [] == s.log;
    if Find(s.caches.names, home).Some? {
      PutHome(s.caches, t, url, home);
    }
    forall n | n in s.caches.names && n.name != home && Current(n.name)
      ensures var c := Put(s.caches, t.phase.store, t.req.url, t.phase.r); n.store < |c.stores| && url !in c.stores[n.store]
    {
      PutElsewhere(s.caches, t, url, home, n);
    }
  }

  lemma PutState(s: State, a: Action)
    requires WellFormed(s.caches) && a.PutEnds? && a.stored && a.id in s.tasks
    requires var t := s.tasks[a.id]; t.phase.Putting? && t.phase.store < |s.caches.stores|
    ensures var t, s' := s.tasks[a.id], TaskStep(s, a);
      && s'.caches == Put(s.caches, t.phase.store, t.req.url, t.phase.r)
      && s'.tasks == s.tasks[a.id := t.(phase := Done)]
      && s'.log == s.log + if Find(s.caches.names, TargetCache(Classify(t.req))) == Some(t.phase.store)
                           then [Stored(t.req.url, TargetCache(Classify(t.req)), t.phase.r)] else []
  {
    hide Classify, Find, Put;
  }

  lemma PutNames(c: Caches, id: nat, url: Url, r: Response)
    requires id < |c.stores|
    ensures Put(c, id, url, r).names == c.names
  {
  }

  lemma SameRequest(s: State, a: Action)
    requires WellFormed(s.caches)
    requires a.Look? || a.FetchEnds? || a.OpenCache? || a.PutEnds? || a.FallBack?
    requires a.id in s.tasks
    ensures a.id in TaskStep(s, a).tasks && TaskStep(s, a).tasks[a.id].req == s.tasks[a.id].req
  {
    hide Match, Classify, Open;
  }

  lemma TaskOnlyAgrees(s: State, id: nat, t: Task, url: Url, home: Name)
    requires Agrees(s, url, home) && id in s.tasks && t.req == s.tasks[id].req
    ensures Agrees(SetTask(s, id, t), url, home)
  {
  }

  lemma TaskAgrees(s: State, a: Action, url: Url, home: Name)
    requires Sound(s) && Agrees(s, url, home) && Current(home)
    requires a.Look? || a.FetchEnds? || a.OpenCache? || a.PutEnds? || a.FallBack?
    requires a.id in s.tasks
    ensures Agrees(TaskStep(s, a), url, home)
  {
    var s' := TaskStep(s, a);
    hide Agrees, Sound;
    if a.PutEnds? {
      PutAgrees(s, a, url, home);
    } else if s' != s {
      assert s'.tasks[a.id].req == s.tasks[a.id].req by { SameRequest(s, a); }
      if a.OpenCache? {
        var c := Open(s.caches, TargetCache(Classify(s.tasks[a.id].req))).0;
        OpenAgrees(s, url, home, TargetCache(Classify(s.tasks[a.id].req)));
        TaskOnlyAgrees(s.(caches := c), a.id, s'.tasks[a.id], url, home);
      } else {
        TaskOnlyAgrees(s, a.id, s'.tasks[a.id], url, home);
      }
    }
  }

  lemma InstallAgrees(s: State, a: Action, url: Url, home: Name)
    requires Sound(s) && Agrees(s, url, home) && Current(home) && url != MANIFEST && a.Install?
    ensures Agrees(Step(s, a), url, home)
  {
    hide Honest, HandleOf, Classify, Latest, Find, Distinct, Open;
    OpenAgrees(s, url, home, StaticAssets);
    LatestAppend(s.log, Stored(MANIFEST, StaticAssets, a.manifest), url, home);
  }

  lemma StepAgrees(s: State, a: Action, url: Url, home: Name)
    requires Sound(s) && Agrees(s, url, home) && Current(home) && url != MANIFEST
    requires Alike([a], url, home)
    ensures Agrees(Step(s, a), url, home)
  {
    hide Honest, HandleOf, Classify, Latest, Find, Distinct, TaskStep;
    match a
    case Install(_) => InstallAgrees(s, a, url, home);
    case Activate => FindDropOld(s.caches.names, home);
    case Clear(name) =>
      FindWithout(s.caches.names, name, home);
      LatestAppend(s.log, Deleted(name), url, home);
    case Begin(_, req) => assert a in [a];
    case _ => if a.id in s.tasks { TaskAgrees(s, a, url, home); }
  }

  lemma {:induction false} RunAgrees(s: State, actions: seq<Action>, url: Url, home: Name)
    requires Sound(s) && Agrees(s, url, home) && Current(home) && url != MANIFEST
    requires Alike(actions, url, home)
    ensures Agrees(Run(s, actions), url, home)
    decreases |actions|
  {
    if actions != [] {
      assert actions[0] in actions;
      StepSound(s, actions[0]);
      StepAgrees(s, actions[0], url, home);
      RunAgrees(Step(s, actions[0]), actions[1..], url, home);
    }
  }

  // If at most one named cache knows the url, searching all of them is asking that one.
  lemma {:induction false} MatchOnlyHome(names: seq<Named>, stores: seq<Store>, url: Url, home: Name)
    requires (forall n | n in names :: n.store < |stores|) && Distinct(names)
    requires forall n | n in names && n.name != home :: url !in stores[n.store]
    ensures MatchIn(names, stores, url)
         == match Find(names, home)
            case Some(id) => if id < |stores| then Lookup(stores[id], url) else None
            case None => None
  {
    if names != [] {
      MatchOnlyHome(names[1..], stores, url, home);
      if names[0].name == home {
        assert Find(names[1..], home).None?;
      }
    }
  }

  // Four caches searched in order of creation answer like one map: for a URL that is not precached and
  // always classified alike, in every state of every run once the worker is active.
  lemma CachesAreOneMap(s: State, actions: seq<Action>, url: Url, home: Name)
    requires Initial(s) && url != MANIFEST && Current(home) && Alike(actions, url, home)
    ensures var s' := Run(s, actions);
      s'.active ==> Match(s'.caches, url) == Latest(s'.log, url, home)
  {
    assert Agrees(s, url, home);
    RunAgrees(s, actions, url, home);
    var s' := Run(s, actions);
    if s'.active {
      MatchOnlyHome(s'.caches.names, s'.caches.stores, url, home);
    }
  }

  // ---------- what is served ----------

  predicate NetworkFirst(r: Request) { Classify(r) == Api || Classify(r) == Html }

  // The entries a request may be answered with when it is not the network's response.
  predicate MayServe(r: Request, url: Url) {
    || url == r.url
    || (url == PLACEHOLDER && Classify(r) == Image)
    || (url == INDEX && (Classify(r) == Html || (Classify(r) == Dynamic && r.mode == "navigate")))
  }

  // A last resort is tried only by pages.
  predicate PageOnly(t: Task) {
    t.phase.LastResort? ==> Classify(t.req) == Html || (Classify(t.req) == Dynamic && t.req.mode == "navigate")
  }

  // From t to t', with c the caches in between: an answer once given stays, and one given now is the
  // task's own network response, or what caches.match holds at that moment for the request's URL or
  // for a fixed fallback.
  predicate Justified(c: Caches, t: Task, t': Task)
    requires WellFormed(c)
  {
    && t'.req == t.req && PageOnly(t')
    && (t.answer.Some? ==> t'.answer == t.answer)
    && (t.answer.None? && t'.answer.Some? ==>
          match t'.answer.value
          case FromNetwork(r) => t'.fetch == Got(r)
          case FromCache(url, r) => MayServe(t'.req, url) && Match(c, url) == Some(r)
          case Offline => Classify(t'.req) == Api && Match(c, t'.req.url) == None
          case NetworkError =>
            && t'.fetch == Failed && Classify(t'.req) != Api
            && (Classify(t'.req) == Image ==> Match(c, PLACEHOLDER) == None)
            && (Classify(t'.req) == Html || (Classify(t'.req) == Dynamic && t'.req.mode == "navigate") ==> Match(c, INDEX) == None))
  }

  lemma FallBackJustified(c: Caches, t: Task)
    requires WellFormed(c) && Honest(t) && t.phase.FallingBack?
    ensures Justified(c, t, FallBackStep(c, t))
  {
    hide Classify, Match;
  }

  lemma LookJustified(c: Caches, t: Task)
    requires WellFormed(c) && Honest(t) && t.phase.Looking?
    ensures Justified(c, t, LookStep(c, t))
  {
    hide Classify, Match;
  }

  lemma FetchJustified(c: Caches, t: Task, r: Option<Response>)
    requires WellFormed(c) && Honest(t) && t.phase.Fetching?
    ensures Justified(c, t, FetchStep(t, r))
  {
    hide Classify, Match;
  }

  lemma ServedResponses(s: State, a: Action, id: nat)
    requires Sound(s) && id in s.tasks && PageOnly(s.tasks[id])
    ensures id in Step(s, a).tasks && Justified(s.caches, s.tasks[id], Step(s, a).tasks[id])
  {
    hide Classify, Match, Open, WellFormed;
    var t := s.tasks[id];
    match a
    case Look(q) => if q == id && t.phase.Looking? { LookJustified(s.caches, t); }
    case FetchEnds(q, r) => if q == id && t.phase.Fetching? { FetchJustified(s.caches, t, r); }
    case FallBack(q) => if q == id && t.phase.FallingBack? { FallBackJustified(s.caches, t); }
    case _ =>
  }

  // A task that was not there before has just begun.
  lemma JustBegun(s: State, a: Action, id: nat)
    requires Sound(s) && id !in s.tasks && id in Step(s, a).tasks
    ensures PageOnly(Step(s, a).tasks[id]) && Step(s, a).tasks[id].answer.None?
  {
    hide Classify, Match, Open, WellFormed, Find, Without, DropOld;
  }

  lemma {:induction false} PagesOnly(s: State, actions: seq<Action>)
    requires Sound(s) && forall id | id in s.tasks :: PageOnly(s.tasks[id])
    ensures forall id | id in Run(s, actions).tasks :: PageOnly(Run(s, actions).tasks[id])
    decreases |actions|
  {
    if actions != [] {
      StepSound(s, actions[0]);
      var s' := Step(s, actions[0]);
      hide Step, Sound, PageOnly, Classify;
      forall id | id in s'.tasks
        ensures PageOnly(s'.tasks[id])
      {
        if id in s.tasks {
          ServedResponses(s, actions[0], id);
          JustifiedPage(s.caches, s.tasks[id], s'.tasks[id]);
        } else {
          JustBegun(s, actions[0], id);
        }
      }
      PagesOnly(s', actions[1..]);
    }
  }

  lemma JustifiedPage(c: Caches, t: Task, t': Task)
    requires WellFormed(c) && Justified(c, t, t')
    ensures PageOnly(t')
  {
  }

  // In every run: whatever a request is answered with from a cache is the latest response stored, since
  // that cache was last deleted, for its own URL or a fixed fallback.
  lemma ServedFromCacheIsLatest(s: State, actions: seq<Action>, a: Action, id: nat, home: Name)
    requires Initial(s) && id in Run(s, actions).tasks
    requires Run(s, actions).tasks[id].answer.None?
    requires id in Step(Run(s, actions), a).tasks
    requires var answer := Step(Run(s, actions), a).tasks[id].answer;
      answer.Some? && answer.value.FromCache?
      && answer.value.url != MANIFEST && Current(home) && Alike(actions, answer.value.url, home)
    ensures var s', answer := Run(s, actions), Step(Run(s, actions), a).tasks[id].answer;
      && MayServe(s'.tasks[id].req, answer.value.url)
      && Latest(s'.log, answer.value.url, home) == Some(answer.value.r)
      && answer.value.r.ok
  {
    var s' := Run(s, actions);
    var answer := Step(s', a).tasks[id].answer;
    PagesOnly(s, actions);
    ServedResponses(s', a, id);
    CachesAreOneMap(s, actions, answer.value.url, home);
    LatestOk(s'.log, answer.value.url, home);
  }

  lemma {:induction false} LatestOk(log: seq<Event>, url: Url, home: Name)
    requires forall e | e in log && e.Stored? :: e.r.ok
    ensures Latest(log, url, home).Some? ==> Latest(log, url, home).value.ok
  {
    if log != [] {
      assert log[|log| - 1] in log;
      LatestOk(log[..|log| - 1], url, home);
    }
  }

  // Once a response has come in and been put, undisturbed, the next match for the URL finds it: what is
  // served stale from a cache is replaced by the refresh behind it.
  lemma RefreshBecomesVisible(s: State, actions: seq<Action>, id: nat, r: Response, home: Name)
    requires Initial(s) && r.ok && id in Run(s, actions).tasks && Run(s, actions).tasks[id].phase.Fetching?
    requires var url := Run(s, actions).tasks[id].req.url; url != MANIFEST && Current(home) && Alike(actions, url, home)
    ensures var s' := Run(s, actions);
      var url, answer := s'.tasks[id].req.url, s'.tasks[id].answer;
      var t := Run(s', [FetchEnds(id, Some(r)), OpenCache(id), PutEnds(id, true)]);
      && Match(t.caches, url) == Some(r)
      && id in t.tasks && t.tasks[id].answer == if answer.Some? then answer else Some(FromNetwork(r))
  {
    var s0 := Run(s, actions);
    RunAgrees(s, actions, s0.tasks[id].req.url, home);
    RunThree(s0, FetchEnds(id, Some(r)), OpenCache(id), PutEnds(id, true));
    RefreshPuts(s0, id, r, s0.tasks[id].req.url, home);
  }

  lemma RefreshPuts(s0: State, id: nat, r: Response, url: Url, home: Name)
    requires Sound(s0) && Agrees(s0, url, home) && Current(home) && url != MANIFEST
    requires r.ok && id in s0.tasks && s0.tasks[id].phase.Fetching? && s0.tasks[id].req.url == url
    ensures Sound(Step(s0, FetchEnds(id, Some(r)))) && Sound(Step(Step(s0, FetchEnds(id, Some(r))), OpenCache(id)))
    ensures var s3 := Step(Step(Step(s0, FetchEnds(id, Some(r))), OpenCache(id)), PutEnds(id, true));
      && Sound(s3) && Match(s3.caches, url) == Some(r)
      && id in s3.tasks
      && s3.tasks[id].answer == if s0.tasks[id].answer.Some? then s0.tasks[id].answer else Some(FromNetwork(r))
  {
    hide Sound, Agrees, Find, Latest, Classify, Distinct, Match;
    var a, b, c := FetchEnds(id, Some(r)), OpenCache(id), PutEnds(id, true);
    StepSound(s0, a);
    StepAgrees(s0, a, url, home);
    var s1 := Step(s0, a);
    StepSound(s1, b);
    StepAgrees(s1, b, url, home);
    var s2 := Step(s1, b);
    StepSound(s2, c);
    StepAgrees(s2, c, url, home);
    var s3 := Step(s2, c);
    AgreedHome(s0, id, url, home);
    SoundParts(s1, id);
    OpenKeeps(s1.caches, home);
    assert s2.tasks[id].phase == Putting(Open(s1.caches, home).1, r);
    assert s3.log == s2.log + [Stored(url, home, r)];
    LatestAppend(s2.log, Stored(url, home, r), url, home);
    ActiveMatches(s3, url, home, id);
  }

  lemma AgreedHome(s: State, id: nat, url: Url, home: Name)
    requires Agrees(s, url, home) && id in s.tasks && s.tasks[id].req.url == url
    ensures TargetCache(Classify(s.tasks[id].req)) == home
  {
  }

  lemma ActiveMatches(s: State, url: Url, home: Name, id: nat)
    requires Sound(s) && Agrees(s, url, home) && id in s.tasks
    ensures Match(s.caches, url) == Latest(s.log, url, home)
  {
    MatchOnlyHome(s.caches.names, s.caches.stores, url, home);
  }

  lemma RunThree(s: State, a: Action, b: Action, c: Action)
    requires Sound(s)
    ensures Sound(Step(s, a)) && Sound(Step(Step(s, a), b))
    ensures Run(s, [a, b, c]) == Step(Step(Step(s, a), b), c)
  {
    StepSound(s, a);
    StepSound(Step(s, a), b);
    StepSound(Step(Step(s, a), b), c);
    hide Step, Sound;
    assert [a, b, c][1..] == [b, c] && [b, c][1..] == [c] && [c][1..] == [];
    assert Run(Step(s, a), [b, c]) == Run(Step(Step(s, a), b), [c]);
    assert Run(Step(Step(s, a), b), [c]) == Run(Step(Step(Step(s, a), b), c), []);
  }

  // In every state of every run, an API or HTML request that got a response from the network was not,
  // and will not be, answered with anything else.
  lemma NetworkFirstServesNetwork(s: State, actions: seq<Action>, id: nat)
    requires Initial(s)
    ensures var s' := Run(s, actions);
      id in s'.tasks && NetworkFirst(s'.tasks[id].req) && s'.tasks[id].fetch.Got? ==>
        && (s'.tasks[id].answer.Some? ==> s'.tasks[id].answer == Some(FromNetwork(s'.tasks[id].fetch.r)))
        && (s'.tasks[id].phase == Done ==> s'.tasks[id].answer.Some?)
  {
    var s' := Run(s, actions);
    if id in s'.tasks {
      assert Honest(s'.tasks[id]);
    }
  }

  // ---------- one request from beginning to end ----------

  ghost predicate EndsIn(s: string, x: string) { exists before :: s == before + x }
  ghost predicate Contains(s: string, x: string) { exists before, after :: s == before + x + after }

  lemma EndsAlike(s: string, x: string)
    ensures EndsWith(s, x) <==> EndsIn(s, x)
  {
    if EndsWith(s, x) {
      assert s == s[..|s| - |x|] + x;
    }
  }

  lemma IncludesAlike(s: string, x: string)
    ensures Includes(s, x) <==> Contains(s, x)
  {
    if Includes(s, x) {
      var i :| 0 <= i <= |s| && x <= s[i..];
      assert s == s[..i] + x + s[i + |x|..];
    }
    if before, after :| s == before + x + after {
      assert x <= s[|before|..];
    }
  }

  ghost predicate ForImages(r: Request) {
    var path := Lower(r.url.pathname);
    || r.destination == "image"
    || EndsIn(path, ".jpg") || EndsIn(path, ".jpeg") || EndsIn(path, ".png") || EndsIn(path, ".gif")
    || EndsIn(path, ".webp") || EndsIn(path, ".svg") || EndsIn(path, ".ico")
    || Contains(r.url.hostname, "pexels.com") || Contains(r.url.hostname, "images.unsplash.com")
  }

  ghost predicate ForAssets(url: Url) {
    var path := Lower(url.pathname);
    || EndsIn(path, ".js") || EndsIn(path, ".css") || EndsIn(path, ".woff") || EndsIn(path, ".woff2")
    || EndsIn(path, ".ttf") || EndsIn(path, ".eot") || EndsIn(path, ".html")
    || url.pathname == "/" || EndsIn(url.pathname, ".json")
  }

  ghost predicate ForPages(url: Url) { url.pathname == "/" || EndsIn(url.pathname, ".html") }

  lemma ImagesAlike(r: Request)
    ensures ForImages(r) <==> r.destination == "image" || ImageUrl(r.url)
  {
    hide EndsWith, Includes, EndsIn, Contains, Lower;
    var path := Lower(r.url.pathname);
    var xs := [".jpg", ".jpeg", ".png", ".gif", ".webp", ".svg", ".ico"];
    forall x
      ensures EndsWith(path, x) <==> EndsIn(path, x)
    {
      EndsAlike(path, x);
    }
    assert xs[0] in IMAGE_SUFFIXES && xs[1] in IMAGE_SUFFIXES && xs[2] in IMAGE_SUFFIXES && xs[3] in IMAGE_SUFFIXES
        && xs[4] in IMAGE_SUFFIXES && xs[5] in IMAGE_SUFFIXES && xs[6] in IMAGE_SUFFIXES;
    IncludesAlike(r.url.hostname, "pexels.com");
    IncludesAlike(r.url.hostname, "images.unsplash.com");
  }

  lemma AssetsAlike(url: Url)
    ensures ForAssets(url) <==> StaticUrl(url)
  {
    hide EndsWith, EndsIn, Lower;
    var path := Lower(url.pathname);
    var xs := [".js", ".css", ".woff", ".woff2", ".ttf", ".eot", ".html"];
    forall x
      ensures EndsWith(path, x) <==> EndsIn(path, x)
    {
      EndsAlike(path, x);
    }
    assert xs[0] in STATIC_SUFFIXES && xs[1] in STATIC_SUFFIXES && xs[2] in STATIC_SUFFIXES && xs[3] in STATIC_SUFFIXES
        && xs[4] in STATIC_SUFFIXES && xs[5] in STATIC_SUFFIXES && xs[6] in STATIC_SUFFIXES;
    EndsAlike(url.pathname, ".json");
  }

  // The kind of a request, by what its URL and its destination say.
  lemma ClassifiedBy(r: Request)
    ensures Classify(r) == Image <==> ForImages(r)
    ensures Classify(r) == Api <==> !ForImages(r) && "/api/" <= r.url.pathname
    ensures Classify(r) == Html
            <==> !ForImages(r) && !("/api/" <= r.url.pathname) && ForAssets(r.url) && ForPages(r.url)
    ensures Classify(r) == Static
            <==> !ForImages(r) && !("/api/" <= r.url.pathname) && ForAssets(r.url) && !ForPages(r.url)
  {
    ImagesAlike(r);
    AssetsAlike(r.url);
    EndsAlike(r.url.pathname, ".html");
    hide ForImages, ForAssets, ImageUrl, StaticUrl, EndsWith, EndsIn;
  }

  // A request is taken over by the active worker exactly if it is a GET for an http or https URL; pages and
  // the API go to the network first, the others look into the caches first.
  lemma BeginsExactly(s: State, id: nat, r: Request)
    requires Sound(s) && id !in s.tasks
    ensures var s' := Step(s, Begin(id, r));
      && (id in s'.tasks <==> s.active && r.verb == "GET" && exists rest :: r.url.protocol == "http" + rest)
      && (id in s'.tasks ==>
            && s' == s.(tasks := s.tasks[id := s'.tasks[id]]) && s'.tasks[id].req == r && s'.tasks[id].answer == None
            && (s'.tasks[id].phase == Fetching <==> Classify(r) == Api || Classify(r) == Html)
            && (s'.tasks[id].phase == Looking <==> Classify(r) != Api && Classify(r) != Html))
      && (id !in s'.tasks ==> s' == s)
  {
    hide Classify, Sound;
    if "http" <= r.url.protocol {
      assert r.url.protocol == "http" + r.url.protocol[4..];
    }
  }

  lemma LooksExactly(s: State, id: nat)
    requires Sound(s) && id in s.tasks && s.tasks[id].phase.Looking?
    ensures var t, next := s.tasks[id], Step(s, Look(id));
      && next.caches == s.caches && next.log == s.log && next.tasks.Keys == s.tasks.Keys
      && (forall q | q in s.tasks && q != id :: next.tasks[q] == s.tasks[q])
      && next.tasks[id].req == t.req && (next.tasks[id].phase == Fetching || next.tasks[id].phase == Done)
      && match Match(s.caches, t.req.url)
         case Some(r) =>
           && next.tasks[id].answer == Some(FromCache(t.req.url, r))
           && (next.tasks[id].phase == Fetching <==> Classify(t.req) == Image || Classify(t.req) == Dynamic)
         case None => next.tasks[id].answer == None && next.tasks[id].phase == Fetching
  {
    SoundParts(s, id);
    hide Classify, Match, WellFormed;
  }

  // Behind a cached answer the network is asked again for images and dynamic requests, and for no others.
  lemma HitIsRefreshed(s: State, actions: seq<Action>, id: nat)
    requires Initial(s) && id in Run(s, actions).tasks && Run(s, actions).tasks[id].phase.Looking?
    ensures Sound(Run(s, actions))
    ensures var s' := Run(s, actions);
      var t, next := s'.tasks[id], Step(s', Look(id));
      && next.caches == s'.caches && next.log == s'.log && id in next.tasks && next.tasks[id].req == t.req
      && match Match(s'.caches, t.req.url)
         case Some(r) =>
           && next.tasks[id].answer == Some(FromCache(t.req.url, r))
           && if Classify(t.req) == Image || Classify(t.req) == Dynamic then next.tasks[id].phase == Fetching
              else next.tasks[id].phase == Done
         case None => next.tasks[id].answer == None && next.tasks[id].phase == Fetching
  {
    LooksExactly(Run(s, actions), id);
    hide Classify, Match, Run, Step;
  }

  // So a cached image or dynamic response is served once more, and then replaced: the next match finds the
  // response that the network gave behind it.
  lemma HitBecomesVisible(s: State, actions: seq<Action>, id: nat, r: Response, home: Name)
    requires Initial(s) && r.ok && id in Run(s, actions).tasks && Run(s, actions).tasks[id].phase.Looking?
    requires var req := Run(s, actions).tasks[id].req;
      && req.url != MANIFEST && Current(home) && Alike(actions, req.url, home)
      && (Classify(req) == Image || Classify(req) == Dynamic) && Match(Run(s, actions).caches, req.url).Some?
    ensures var s' := Run(s, actions);
      var url := s'.tasks[id].req.url;
      var t := Run(s', [Look(id), FetchEnds(id, Some(r)), OpenCache(id), PutEnds(id, true)]);
      && Match(t.caches, url) == Some(r)
      && id in t.tasks && t.tasks[id].answer == Some(FromCache(url, Match(s'.caches, url).value))
  {
    var s' := Run(s, actions);
    var url := s'.tasks[id].req.url;
    RunAgrees(s, actions, url, home);
    hide Run, Alike, Match, Classify, Agrees, Sound;
    HitThen(s', id, r, url, home);
  }

  lemma HitThen(s: State, id: nat, r: Response, url: Url, home: Name)
    requires Sound(s) && Agrees(s, url, home) && Current(home) && url != MANIFEST && r.ok
    requires id in s.tasks && s.tasks[id].phase.Looking? && s.tasks[id].req.url == url
    requires Match(s.caches, url).Some? && (Classify(s.tasks[id].req) == Image || Classify(s.tasks[id].req) == Dynamic)
    ensures var t := Run(s, [Look(id), FetchEnds(id, Some(r)), OpenCache(id), PutEnds(id, true)]);
      && Match(t.caches, url) == Some(r)
      && id in t.tasks && t.tasks[id].answer == Some(FromCache(url, Match(s.caches, url).value))
  {
    StepSound(s, Look(id));
    LooksExactly(s, id);
    NothingBegins(id, url, home);
    hide Alike, Match, Classify, Agrees;
    StepAgrees(s, Look(id), url, home);
    hide Step, Run, Sound;
    RefreshedThen(s, id, r, url, home);
  }

  lemma NothingBegins(id: nat, url: Url, home: Name)
    ensures Alike([Look(id)], url, home)
  {
  }

  lemma RefreshedThen(s: State, id: nat, r: Response, url: Url, home: Name)
    requires Sound(s) && Sound(Step(s, Look(id))) && Agrees(Step(s, Look(id)), url, home) && Current(home) && url != MANIFEST && r.ok
    requires var s1 := Step(s, Look(id)); id in s1.tasks && s1.tasks[id].phase.Fetching? && s1.tasks[id].req.url == url && s1.tasks[id].answer.Some?
    ensures var t := Run(s, [Look(id), FetchEnds(id, Some(r)), OpenCache(id), PutEnds(id, true)]);
      Match(t.caches, url) == Some(r) && id in t.tasks && t.tasks[id].answer == Step(s, Look(id)).tasks[id].answer
  {
    var s1, rest := Step(s, Look(id)), [FetchEnds(id, Some(r)), OpenCache(id), PutEnds(id, true)];
    hide Sound, Agrees, Run, Step, Match, Classify;
    RunAppend(s, Look(id), rest);
    assert [Look(id), FetchEnds(id, Some(r)), OpenCache(id), PutEnds(id, true)] == [Look(id)] + rest;
    RunThree(s1, FetchEnds(id, Some(r)), OpenCache(id), PutEnds(id, true));
    RefreshPuts(s1, id, r, url, home);
  }

  // The cache called name holds r for url.
  predicate Holding(c: Caches, name: Name, url: Url, r: Response) {
    exists n | n in c.names :: n.name == name && n.store < |c.stores| && Lookup(c.stores[n.store], url) == Some(r)
  }

  predicate FallsTo(c: Caches, path: string, answer: Answer)
    requires WellFormed(c)
  {
    match Match(c, Local("kayad", path))
    case Some(r) => answer == FromCache(Local("kayad", path), r)
    case None => answer == NetworkError
  }

  // What a request is answered with if the caches were c when it came and nothing else happens.
  predicate AnsweredRightly(c: Caches, r: Request, fetched: Option<Response>, answer: Answer)
    requires WellFormed(c)
  {
    var kind, cached := Classify(r), Match(c, r.url);
    if fetched.Some? && (kind == Api || kind == Html || cached.None?) then answer == FromNetwork(fetched.value)
    else if cached.Some? then answer == FromCache(r.url, cached.value)
    else if kind == Image then FallsTo(c, "/placeholder-car.svg", answer)
    else if kind == Html || (kind == Dynamic && r.mode == "navigate") then FallsTo(c, "/index.html", answer)
    else answer == if kind == Api then Offline else NetworkError
  }

  predicate StoredRightly(c: Caches, r: Request, fetched: Option<Response>, c': Caches)
    requires WellFormed(c)
  {
    if fetched.Some? && fetched.value.ok && !(Classify(r) == Static && Match(c, r.url).Some?) then
      match Classify(r)
      case Image => Holding(c', Images, r.url, fetched.value)
      case Api => Holding(c', ApiData, r.url, fetched.value)
      case Html => Holding(c', StaticAssets, r.url, fetched.value)
      case Static => Holding(c', StaticAssets, r.url, fetched.value)
      case Dynamic => Holding(c', Mobile, r.url, fetched.value)
    else c' == c
  }

  predicate EndsRightly(c: Caches, req: Request, fetched: Option<Response>, s: State, id: nat)
    requires WellFormed(c)
  {
    && id in s.tasks && s.tasks[id].phase == Done && s.tasks[id].answer.Some?
    && AnsweredRightly(c, req, fetched, s.tasks[id].answer.value) && StoredRightly(c, req, fetched, s.caches)
  }

  // All that a request can wait for, in order; what it does not wait for changes nothing.
  function Waits(id: nat, req: Request, fetched: Option<Response>): seq<Action> {
    [Begin(id, req), Look(id), FetchEnds(id, fetched), OpenCache(id), PutEnds(id, true), FallBack(id), FallBack(id)]
  }

  lemma RunAppend(s: State, a: Action, rest: seq<Action>)
    requires Sound(s)
    ensures Sound(Step(s, a)) && Run(s, [a] + rest) == Run(Step(s, a), rest)
  {
    StepSound(s, a);
    assert ([a] + rest)[1..] == rest;
  }

  lemma DoneWaits(s: State, a: Action)
    requires Sound(s) && (a.Look? || a.FetchEnds? || a.OpenCache? || a.PutEnds? || a.FallBack?)
    requires a.id in s.tasks && s.tasks[a.id].phase == Done
    ensures Step(s, a) == s
  {
    hide Sound;
  }

  lemma {:induction false} DoneStays(s: State, id: nat, rest: seq<Action>)
    requires Sound(s) && id in s.tasks && s.tasks[id].phase == Done
    requires forall a | a in rest :: (a.Look? || a.FetchEnds? || a.OpenCache? || a.PutEnds? || a.FallBack?) && a.id == id
    ensures Run(s, rest) == s
  {
    if rest != [] {
      assert rest[0] in rest;
      RunAppend(s, rest[0], rest[1..]);
      assert rest == [rest[0]] + rest[1..];
      DoneWaits(s, rest[0]);
      hide Sound, Step;
      DoneStays(s, id, rest[1..]);
    }
  }

  lemma StepsDone(s: State, id: nat, rest: seq<Action>)
    requires Sound(s) && id in s.tasks
    requires forall a | a in rest :: (a.Look? || a.FetchEnds? || a.OpenCache? || a.PutEnds? || a.FallBack?) && a.id == id
    ensures s.tasks[id].phase == Done ==> Run(s, rest) == s
  {
    if s.tasks[id].phase == Done {
      DoneStays(s, id, rest);
    }
  }

  // What is left when the network has failed: perhaps the page of the application.
  lemma FirstFall(s: State, id: nat)
    requires Sound(s) && id in s.tasks && s.tasks[id].phase == FallingBack
    requires var r := s.tasks[id].req; Classify(r) == Api || Classify(r) == Html || Match(s.caches, r.url).None?
    ensures var t, s' := s.tasks[id], Step(s, FallBack(id));
      && id in s'.tasks && s'.caches == s.caches && s'.tasks[id].req == t.req
      && if s'.tasks[id].phase == LastResort
         then forall x :: FallsTo(s.caches, "/index.html", x) ==> AnsweredRightly(s.caches, t.req, None, x)
         else s'.tasks[id].phase == Done && EndsRightly(s.caches, t.req, None, s', id)
  {
    SoundParts(s, id);
    hide Sound, Match, Classify, WellFormed, FallBackStep, AnsweredRightly, StoredRightly, FallsTo, Step;
    StepFalls(s, id);
    FallBackRightly(s.caches, s.tasks[id]);
    NotStored(s.caches, s.tasks[id].req, None);
  }

  lemma StepFalls(s: State, id: nat)
    requires WellFormed(s.caches) && id in s.tasks && s.tasks[id].phase == FallingBack
    ensures Step(s, FallBack(id)) == SetTask(s, id, FallBackStep(s.caches, s.tasks[id]))
  {
    hide FallBackStep, WellFormed;
  }

  lemma FallBackRightly(c: Caches, t: Task)
    requires WellFormed(c) && (Classify(t.req) == Api || Classify(t.req) == Html || Match(c, t.req.url).None?)
    ensures var t' := FallBackStep(c, t);
      && t'.req == t.req
      && if t'.phase == LastResort then forall x :: FallsTo(c, "/index.html", x) ==> AnsweredRightly(c, t.req, None, x)
         else t'.phase == Done && t'.answer.Some? && AnsweredRightly(c, t.req, None, t'.answer.value)
  {
    hide Match, Classify, WellFormed;
  }

  lemma LastFall(s: State, id: nat)
    requires Sound(s) && id in s.tasks && (s.tasks[id].phase == LastResort || s.tasks[id].phase == Done)
    ensures var t, s' := s.tasks[id], Step(s, FallBack(id));
      && id in s'.tasks && s'.caches == s.caches
      && if t.phase == Done then s' == s
         else s'.tasks[id].phase == Done && s'.tasks[id].answer.Some? && FallsTo(s.caches, "/index.html", s'.tasks[id].answer.value)
  {
    hide Sound, Match, Classify, WellFormed;
  }

  lemma FallsBack(s: State, id: nat)
    requires Sound(s) && id in s.tasks && s.tasks[id].phase == FallingBack
    requires var r := s.tasks[id].req; Classify(r) == Api || Classify(r) == Html || Match(s.caches, r.url).None?
    ensures Sound(Step(s, FallBack(id)))
    ensures EndsRightly(s.caches, s.tasks[id].req, None, Step(Step(s, FallBack(id)), FallBack(id)), id)
  {
    StepSound(s, FallBack(id));
    assert WellFormed(s.caches) && WellFormed(Step(s, FallBack(id)).caches);
    FirstFall(s, id);
    hide Sound, Step, AnsweredRightly, FallsTo;
    LastFall(Step(s, FallBack(id)), id);
  }

  lemma PutHolds(c: Caches, name: Name, url: Url, r: Response)
    requires WellFormed(c)
    ensures var (c', store) := Open(c, name);
      store < |c'.stores| && Holding(Put(c', store, url, r), name, url, r)
  {
    OpenKeeps(c, name);
    var (c', store) := Open(c, name);
    var n :| n in c'.names && n.name == name && n.store == store;
    hide Distinct, Find;
    assert n in Put(c', store, url, r).names;
  }

  lemma OpensFor(s: State, id: nat)
    requires Sound(s) && id in s.tasks && s.tasks[id].phase.Opening?
    ensures var t, s' := s.tasks[id], Step(s, OpenCache(id));
      var (c, store) := Open(s.caches, TargetCache(Classify(t.req)));
      && s'.caches == c && id in s'.tasks
      && s'.tasks[id] == t.(phase := Putting(store, t.phase.r), answer := if t.answer.Some? then t.answer else Some(FromNetwork(t.phase.r)))
  {
    hide Sound, Classify, Open;
  }

  lemma PutsAndEnds(s: State, id: nat)
    requires Sound(s) && id in s.tasks && s.tasks[id].phase.Putting? && s.tasks[id].phase.store < |s.caches.stores|
    ensures var t, s' := s.tasks[id], Step(s, PutEnds(id, true));
      && s'.caches == Put(s.caches, t.phase.store, t.req.url, t.phase.r)
      && id in s'.tasks && s'.tasks[id] == t.(phase := Done)
  {
    hide Sound, Classify, Put, Find;
  }

  // What is left when a response may be kept.
  lemma KeepsResponse(s: State, id: nat)
    requires Sound(s) && id in s.tasks && s.tasks[id].phase.Opening?
    ensures Sound(Step(s, OpenCache(id)))
    ensures var t, s' := s.tasks[id], Step(Step(s, OpenCache(id)), PutEnds(id, true));
      && id in s'.tasks && s'.tasks[id].phase == Done
      && s'.tasks[id].answer == (if t.answer.Some? then t.answer else Some(FromNetwork(t.phase.r)))
      && Holding(s'.caches, TargetCache(Classify(t.req)), t.req.url, t.phase.r)
  {
    StepSound(s, OpenCache(id));
    assert WellFormed(s.caches) && WellFormed(Step(s, OpenCache(id)).caches);
    hide Sound, Step, Classify, Open, Put, Holding, WellFormed;
    var t := s.tasks[id];
    PutHolds(s.caches, TargetCache(Classify(t.req)), t.req.url, t.phase.r);
    OpensFor(s, id);
    PutsAndEnds(Step(s, OpenCache(id)), id);
  }

  lemma RunWaits(s: State, id: nat, req: Request, fetched: Option<Response>)
    requires Sound(s)
    ensures var s1 := Step(s, Begin(id, req));
      && Sound(s1) && Sound(Step(s1, Look(id)))
      && Run(s, Waits(id, req, fetched)) == Run(Step(s1, Look(id)), Waits(id, req, fetched)[2..])
  {
    var w := Waits(id, req, fetched);
    assert w == [w[0], w[1]] + w[2..];
    RunTwo(s, w[0], w[1], w[2..]);
  }

  // A request that is at the network: it has been answered from the cache unless it does so first.
  predicate AtNetwork(s: State, id: nat, req: Request)
    requires WellFormed(s.caches)
  {
    && id in s.tasks && s.tasks[id].phase == Fetching && s.tasks[id].req == req
    && var cached := Match(s.caches, req.url);
       if cached.None? || Classify(req) == Api || Classify(req) == Html then s.tasks[id].answer == None
       else Classify(req) != Static && s.tasks[id].answer == Some(FromCache(req.url, cached.value))
  }

  lemma AnswersNow(s: State, id: nat, req: Request, r: Response)
    requires Sound(s) && AtNetwork(s, id, req)
    ensures var answer := s.tasks[id].answer;
      AnsweredRightly(s.caches, req, Some(r), if answer.Some? then answer.value else FromNetwork(r))
    ensures Classify(req) == Static ==> Match(s.caches, req.url).None?
  {
    hide Sound, Match, Classify;
  }

  lemma ResponseKept(s: State, id: nat, req: Request, r: Response)
    requires Sound(s) && AtNetwork(s, id, req) && r.ok
    ensures Sound(Step(s, FetchEnds(id, Some(r)))) && Sound(Step(Step(s, FetchEnds(id, Some(r))), OpenCache(id)))
    ensures var s' := Step(Step(Step(s, FetchEnds(id, Some(r))), OpenCache(id)), PutEnds(id, true));
      EndsRightly(s.caches, req, Some(r), s', id)
  {
    var s1 := Step(s, FetchEnds(id, Some(r)));
    StepSound(s, FetchEnds(id, Some(r)));
    AnswersNow(s, id, req, r);
    hide Match, Classify, Holding, AnsweredRightly, AtNetwork;
    FetchedOk(s, id, r);
    hide Sound;
    KeepsResponse(s1, id);
    hide Step;
  }

  lemma FetchedOk(s: State, id: nat, r: Response)
    requires Sound(s) && id in s.tasks && s.tasks[id].phase == Fetching && r.ok
    ensures var s' := Step(s, FetchEnds(id, Some(r)));
      s'.caches == s.caches && id in s'.tasks && s'.tasks[id] == s.tasks[id].(fetch := Got(r), phase := Opening(r))
  {
    hide Sound;
  }

  lemma ResponseNotKept(s: State, id: nat, req: Request, r: Response)
    requires Sound(s) && AtNetwork(s, id, req) && !r.ok
    ensures var s' := Step(s, FetchEnds(id, Some(r)));
      EndsRightly(s.caches, req, Some(r), s', id)
  {
    AnswersNow(s, id, req, r);
    NotKept(s, id, r);
    NotStored(s.caches, req, Some(r));
    hide Sound, Match, Classify, AnsweredRightly, StoredRightly, Step, WellFormed;
  }

  lemma NotKept(s: State, id: nat, r: Response)
    requires Sound(s) && id in s.tasks && s.tasks[id].phase == Fetching && !r.ok
    ensures var t, s' := s.tasks[id], Step(s, FetchEnds(id, Some(r)));
      && s'.caches == s.caches && id in s'.tasks && s'.tasks[id].phase == Done
      && s'.tasks[id].answer == Some(if t.answer.Some? then t.answer.value else FromNetwork(r))
  {
    hide Sound;
  }

  lemma NotStored(c: Caches, req: Request, fetched: Option<Response>)
    requires WellFormed(c) && (fetched.None? || !fetched.value.ok)
    ensures StoredRightly(c, req, fetched, c)
  {
    hide Classify, Match;
  }

  lemma NoResponse(s: State, id: nat, req: Request)
    requires Sound(s) && AtNetwork(s, id, req)
    ensures var s' := Step(s, FetchEnds(id, None));
      && id in s'.tasks && s'.caches == s.caches && s'.tasks[id].req == req
      && if s.tasks[id].answer.None?
         then s'.tasks[id].phase == FallingBack && (Classify(req) == Api || Classify(req) == Html || Match(s.caches, req.url).None?)
         else s'.tasks[id].phase == Done && EndsRightly(s.caches, req, None, s', id)
  {
    hide Sound, Match, Classify;
  }

  // The part from the network on.
  lemma FromNetworkOn(s: State, id: nat, req: Request, fetched: Option<Response>)
    requires Sound(s) && AtNetwork(s, id, req)
    ensures EndsRightly(s.caches, req, fetched, Run(s, Waits(id, req, fetched)[2..]), id)
  {
    RunRest(s, id, req, fetched);
    assert WellFormed(s.caches) && WellFormed(Step(s, FetchEnds(id, fetched)).caches);
    hide AtNetwork, EndsRightly, Step, Run, Sound, WellFormed, Rest;
    match fetched
    case Some(r) => if r.ok { EndsKept(s, id, req, r); } else { EndsNotKept(s, id, req, r); }
    case None => EndsFailed(s, id, req);
  }

  lemma EndsKept(s: State, id: nat, req: Request, r: Response)
    requires Sound(s) && AtNetwork(s, id, req) && r.ok
    ensures Sound(Step(s, FetchEnds(id, Some(r))))
    ensures EndsRightly(s.caches, req, Some(r), Run(Step(s, FetchEnds(id, Some(r))), Rest(id)), id)
  {
    ResponseKept(s, id, req, r);
    assert WellFormed(s.caches);
    hide AtNetwork, Step, Run, Sound, AnsweredRightly, StoredRightly;
    var s1 := Step(s, FetchEnds(id, Some(r)));
    RunTwo(s1, OpenCache(id), PutEnds(id, true), [FallBack(id), FallBack(id)]);
    StepsDone(Step(Step(s1, OpenCache(id)), PutEnds(id, true)), id, [FallBack(id), FallBack(id)]);
  }

  lemma EndsNotKept(s: State, id: nat, req: Request, r: Response)
    requires Sound(s) && AtNetwork(s, id, req) && !r.ok
    ensures Sound(Step(s, FetchEnds(id, Some(r))))
    ensures EndsRightly(s.caches, req, Some(r), Run(Step(s, FetchEnds(id, Some(r))), Rest(id)), id)
  {
    StepSound(s, FetchEnds(id, Some(r)));
    ResponseNotKept(s, id, req, r);
    assert WellFormed(s.caches);
    hide AtNetwork, Step, Run, Sound, AnsweredRightly, StoredRightly;
    StepsDone(Step(s, FetchEnds(id, Some(r))), id, Rest(id));
  }

  lemma EndsFailed(s: State, id: nat, req: Request)
    requires Sound(s) && AtNetwork(s, id, req)
    ensures Sound(Step(s, FetchEnds(id, None)))
    ensures EndsRightly(s.caches, req, None, Run(Step(s, FetchEnds(id, None)), Rest(id)), id)
  {
    StepSound(s, FetchEnds(id, None));
    NoResponse(s, id, req);
    assert WellFormed(s.caches);
    hide AtNetwork, Step, Run, Sound, AnsweredRightly, StoredRightly;
    var s1 := Step(s, FetchEnds(id, None));
    if s1.tasks[id].phase == FallingBack {
      LastSteps(s1, id);
    } else {
      StepsDone(s1, id, Rest(id));
    }
  }

  function Rest(id: nat): seq<Action> { [OpenCache(id), PutEnds(id, true)] + [FallBack(id), FallBack(id)] }

  lemma RunRest(s: State, id: nat, req: Request, fetched: Option<Response>)
    requires Sound(s) && AtNetwork(s, id, req)
    ensures Sound(Step(s, FetchEnds(id, fetched))) && id in s.tasks
    ensures Run(s, Waits(id, req, fetched)[2..]) == Run(Step(s, FetchEnds(id, fetched)), Rest(id))
  {
    hide Sound, Step, Run;
    assert Waits(id, req, fetched)[2..] == [FetchEnds(id, fetched)] + Rest(id);
    RunAppend(s, FetchEnds(id, fetched), Rest(id));
  }

  lemma NothingToPut(s: State, id: nat)
    requires Sound(s) && id in s.tasks && s.tasks[id].phase == FallingBack
    ensures Step(s, OpenCache(id)) == s && Step(s, PutEnds(id, true)) == s
  {
    hide Sound;
  }

  lemma LastSteps(s: State, id: nat)
    requires Sound(s) && id in s.tasks && s.tasks[id].phase == FallingBack
    requires var r := s.tasks[id].req; Classify(r) == Api || Classify(r) == Html || Match(s.caches, r.url).None?
    ensures EndsRightly(s.caches, s.tasks[id].req, None, Run(s, Rest(id)), id)
  {
    FallsBack(s, id);
    assert WellFormed(s.caches);
    hide Sound, Run, EndsRightly, Step;
    NothingToPut(s, id);
    RunTwo(s, OpenCache(id), PutEnds(id, true), [FallBack(id), FallBack(id)]);
    RunTwo(s, FallBack(id), FallBack(id), []);
    assert [FallBack(id), FallBack(id)] == [FallBack(id), FallBack(id)] + [];
    RunNothing(Step(Step(s, FallBack(id)), FallBack(id)));
  }

  lemma RunNothing(s: State)
    requires Sound(s)
    ensures Run(s, []) == s
  {
  }

  lemma RunTwo(s: State, a: Action, b: Action, rest: seq<Action>)
    requires Sound(s)
    ensures Sound(Step(s, a)) && WellFormed(Step(s, a).caches)
    ensures Sound(Step(Step(s, a), b)) && WellFormed(Step(Step(s, a), b).caches)
    ensures Run(s, [a, b] + rest) == Run(Step(Step(s, a), b), rest)
  {
    RunAppend(s, a, [b] + rest);
    assert WellFormed(Step(s, a).caches);
    hide Sound, Step;
    RunAppend(Step(s, a), b, rest);
    assert [a, b] + rest == [a] + ([b] + rest);
  }

  // For every request, in every state of every run with the worker active: what it is answered with, and
  // what the caches hold then, if it is left undisturbed.
  lemma OneRequest(s: State, actions: seq<Action>, id: nat, req: Request, fetched: Option<Response>)
    requires Initial(s) && Run(s, actions).active && id !in Run(s, actions).tasks && Handled(req)
    ensures Sound(Run(s, actions))
    ensures var s0 := Run(s, actions);
      EndsRightly(s0.caches, req, fetched, Run(s0, Waits(id, req, fetched)), id)
  {
    var s0 := Run(s, actions);
    RunWaits(s0, id, req, fetched);
    assert WellFormed(s0.caches);
    hide Sound, Run, AnsweredRightly, StoredRightly, Step, AtNetwork, Match, WellFormed, Waits;
    AfterLook(s0, id, req);
    var s2 := Step(Step(s0, Begin(id, req)), Look(id));
    if s2.tasks[id].phase == Fetching {
      FromNetworkOn(s2, id, req, fetched);
    } else {
      WaitsOwn(id, req, fetched);
      StepsDone(s2, id, Waits(id, req, fetched)[2..]);
      ServedByHit(s0.caches, req, fetched);
    }
  }

  lemma WaitsOwn(id: nat, req: Request, fetched: Option<Response>)
    ensures |Waits(id, req, fetched)| == 7
    ensures forall a | a in Waits(id, req, fetched)[2..] ::
              (a.Look? || a.FetchEnds? || a.OpenCache? || a.PutEnds? || a.FallBack?) && a.id == id
  {
  }

  lemma AfterLook(s: State, id: nat, req: Request)
    requires Sound(s) && s.active && id !in s.tasks && Handled(req)
    ensures Sound(Step(s, Begin(id, req)))
    ensures var s' := Step(Step(s, Begin(id, req)), Look(id));
      && id in s'.tasks && s'.caches == s.caches
      && if s'.tasks[id].phase == Fetching then AtNetwork(s', id, req)
         else && s'.tasks[id].phase == Done && Classify(req) == Static && Match(s.caches, req.url).Some?
              && s'.tasks[id].answer == Some(FromCache(req.url, Match(s.caches, req.url).value))
  {
    StepSound(s, Begin(id, req));
    hide Sound, Match, Classify;
  }

  lemma ServedByHit(c: Caches, req: Request, fetched: Option<Response>)
    requires WellFormed(c) && Classify(req) == Static && Match(c, req.url).Some?
    ensures AnsweredRightly(c, req, fetched, FromCache(req.url, Match(c, req.url).value)) && StoredRightly(c, req, fetched, c)
  {
    hide Match, Classify, WellFormed;
  }

  // ---------- the precached URL ----------

  lemma {:induction false} LowerFixed(s: string)
    requires forall i | 0 <= i < |s| :: !('A' <= s[i] <= 'Z')
    ensures Lower(s) == s
  {
    if s != [] {
      LowerFixed(s[1..]);
    }
  }

  // A path ending in `st` has none of the suffixes.
  lemma NoSuffix(s: string, x: string)
    requires |s| >= 2 && s[|s| - 1] == 't' && s[|s| - 2] == 's'
    requires x in IMAGE_SUFFIXES || x in STATIC_SUFFIXES || x == ".json"
    ensures !EndsWith(s, x)
  {
    assert |x| >= 3 && !(x[|x| - 1] == 't' && x[|x| - 2] == 's');
  }

  lemma PathIsDynamic(r: Request)
    requires r.destination != "image"
    requires !Includes(r.url.hostname, "pexels.com") && !Includes(r.url.hostname, "images.unsplash.com")
    requires var p := r.url.pathname; |p| >= 2 && p[|p| - 1] == 't' && p[|p| - 2] == 's' && p[1] != 'a' && Lower(p) == p
    ensures Classify(r) == Dynamic
  {
    hide EndsWith, Lower;
    forall x | x in IMAGE_SUFFIXES || x in STATIC_SUFFIXES || x == ".json"
      ensures !EndsWith(r.url.pathname, x)
    {
      NoSuffix(r.url.pathname, x);
    }
  }

  lemma TooShort(s: string, part: string)
    requires |s| < |part|
    ensures !Includes(s, part)
  {
  }

  lemma ManifestIsDynamic(r: Request)
    requires r.url == MANIFEST && r.destination != "image"
    ensures Classify(r) == Dynamic
  {
    hide Lower, Classify, ImageUrl, StaticUrl;
    LowerFixed(MANIFEST.pathname);
    TooShort(HOST, "pexels.com");
    TooShort(HOST, "images.unsplash.com");
    hide Includes;
    PathIsDynamic(r);
  }

  // The worker is active, and the first cache that caches.match looks into holds m for the manifest.
  predicate Pinned(s: State, m: Response) {
    && Sound(s) && s.active
    && s.caches.names != [] && s.caches.names[0].name == StaticAssets
    && Lookup(s.caches.stores[s.caches.names[0].store], MANIFEST) == Some(m)
    && forall id | id in s.tasks && s.tasks[id].req.url == MANIFEST :: s.tasks[id].req.destination != "image"
  }

  predicate SparesPrecache(a: Action) {
    a != Clear(StaticAssets) && (a.Begin? && a.req.url == MANIFEST ==> a.req.destination != "image")
  }

  lemma PutPinned(s: State, a: Action, m: Response)
    requires Pinned(s, m) && a.PutEnds? && a.id in s.tasks
    ensures Pinned(TaskStep(s, a), m)
  {
    TaskSound(s, a);
    SoundParts(s, a.id);
    hide Honest, Classify, Distinct, Find, Sound;
    var t := s.tasks[a.id];
    if t.phase.Putting? && t.req.url == MANIFEST {
      ManifestIsDynamic(t.req);
      assert s.caches.names[0] in s.caches.names;
    }
  }

  lemma TaskPinned(s: State, a: Action, m: Response)
    requires Pinned(s, m)
    requires a.Look? || a.FetchEnds? || a.OpenCache? || a.PutEnds? || a.FallBack?
    requires a.id in s.tasks
    ensures Pinned(TaskStep(s, a), m)
  {
    hide Honest, HandleOf, Match, Classify;
    TaskSound(s, a);
    SameRequest(s, a);
    if a.PutEnds? {
      PutPinned(s, a, m);
    } else if a.OpenCache? {
      OpenKeeps(s.caches, TargetCache(Classify(s.tasks[a.id].req)));
    }
  }

  lemma StepPinned(s: State, a: Action, m: Response)
    requires Pinned(s, m) && SparesPrecache(a)
    ensures Pinned(Step(s, a), m)
  {
    hide Honest, HandleOf, Match, Classify;
    StepSound(s, a);
    match a
    case Install(_) =>
    case Activate =>
    case Clear(name) => assert Without(s.caches.names, name)[0] == s.caches.names[0];
    case Begin(_, _) =>
    case _ => if a.id in s.tasks { TaskPinned(s, a, m); }
  }

  lemma {:induction false} RunPinned(s: State, actions: seq<Action>, m: Response)
    requires Pinned(s, m)
    requires forall a | a in actions :: SparesPrecache(a)
    ensures Pinned(Run(s, actions), m)
    decreases |actions|
  {
    if actions != [] {
      var a := actions[0];
      assert a in actions && forall b | b in actions[1..] :: b in actions;
      StepSound(s, a);
      StepPinned(s, a, m);
      RunPinned(Step(s, a), actions[1..], m);
    }
  }

  // Why the precached URL is left out above: its requests are dynamic, so refreshes go to another cache
  // than the precached copy, and the copy, whose cache is the oldest, is found first.  However often the
  // manifest is refreshed, caches.match keeps answering with the copy of the installation.
  lemma PrecachedStaysStale(s: State, m: Response, actions: seq<Action>)
    requires Initial(s) && m.ok
    requires forall a | a in actions :: SparesPrecache(a)
    ensures Match(Run(Run(s, [Install(m), Activate]), actions).caches, MANIFEST) == Some(m)
  {
    var s1 := Step(s, Install(m));
    StepSound(s, Install(m));
    var s2 := Step(s1, Activate);
    StepSound(s1, Activate);
    assert [Install(m), Activate][1..] == [Activate] && [Activate][1..] == [];
    assert Run(s1, [Activate]) == Run(s2, []) == s2;
    NothingCurrent(s.caches.names, StaticAssets);
    OldThenOne(s.caches.names, Named(StaticAssets, |s.caches.stores|));
    RunPinned(s2, actions, m);
  }

  lemma NothingCurrent(names: seq<Named>, name: Name)
    requires (forall n | n in names :: n.name.Old?) && Current(name)
    ensures Find(names, name) == None
  {
  }

  lemma {:induction false} OldThenOne(names: seq<Named>, n: Named)
    requires (forall m | m in names :: m.name.Old?) && Current(n.name)
    ensures DropOld(names + [n]) == [n]
  {
    if names == [] {
      assert names + [n] == [n] && [n][1..] == [];
    } else {
      assert (names + [n])[1..] == names[1..] + [n];
      OldThenOne(names[1..], n);
    }
  }
}
