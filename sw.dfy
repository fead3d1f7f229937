/**
  The offline cache agent of sw.js: the browser's cache storage, the
  install and activate steps of its life cycle, the routing of each fetch,
  and the push and notification-click handlers.

  Each event is one atomic step (the promise chains, and the moment
  `cache.put` lands after the response is returned, are not modelled). The
  network is a parameter: for each URL the response the server sends, or
  `None` when the fetch fails. URLs are compared as the cache compares
  them, by their text.
*/
module ServiceWorker {
  import opened Wrappers
  import opened Text
  import opened Seqs

  datatype Response = Response(status: int, kind: string, body: string)

  datatype Request = Request(verb: string, url: string, destination: string)

  /** The app shell cached on install. */
  const Shell: seq<string> := [
    "/", "/pages/1_Delegate_Dashboard.py", "/pages/0_Landing.py", "/assets/logos/insaka.jpg",
    "/assets/pwa/icon-48x48.png", "/assets/pwa/icon-72x72.png", "/assets/pwa/icon-96x96.png",
    "/assets/pwa/icon-144x144.png", "/assets/pwa/icon-152x152.png", "/assets/pwa/icon-167x167.png",
    "/assets/pwa/icon-180x180.png", "/assets/pwa/icon-192x192.png", "/assets/pwa/icon-512x512.png",
    "/manifest.json"]

  /** The page offered to a document request when the network is down. */
  const Landing: string := "/pages/0_Landing.py"

  // ----- cache storage -----

  /** The cache storage: cache names in creation order, and each cache's entries by URL. */
  datatype Storage = Storage(names: seq<string>, entries: map<string, map<string, Response>>)

  predicate Distinct(s: seq<string>) {
    forall i, j :: 0 <= i < j < |s| ==> s[i] != s[j]
  }

  /** Every named cache has entries, every entry belongs to a named cache, and no name repeats. */
  ghost predicate Wellformed(s: Storage) {
    (forall n :: n in s.names <==> n in s.entries) && Distinct(s.names)
  }

  /** `caches.open(name)`: the cache, created empty (and last) when there was none. */
  function Open(s: Storage, name: string): (r: Storage)
    ensures name in r.entries
  {
    if name in s.entries then s else Storage(s.names + [name], s.entries[name := map[]])
  }

  /** `cache.put`: the entry for `url` in cache `name` becomes `response`. */
  function Put(s: Storage, name: string, url: string, response: Response): Storage {
    var o := Open(s, name);
    o.(entries := o.entries[name := o.entries[name][url := response]])
  }

  /** `caches.match(url)`: the entry of the first cache, in creation order, that holds `url`. */
  function MatchIn(names: seq<string>, entries: map<string, map<string, Response>>, url: string): Option<Response>
    decreases |names|
  {
    if |names| == 0 then None
    else if names[0] in entries && url in entries[names[0]] then Some(entries[names[0]][url])
    else MatchIn(names[1..], entries, url)
  }

  function Match(s: Storage, url: string): Option<Response> {
    MatchIn(s.names, s.entries, url)
  }

  function Holds(entries: map<string, map<string, Response>>, url: string): string -> bool {
    n => n in entries && url in entries[n]
  }

  /** `caches.match` finds nothing exactly when no named cache holds the URL. */
  lemma {:induction false} MatchInNone(names: seq<string>, entries: map<string, map<string, Response>>, url: string)
    ensures MatchIn(names, entries, url) == None <==> forall i :: 0 <= i < |names| ==> !Holds(entries, url)(names[i])
    decreases |names|
  {
    if |names| > 0 {
      MatchInNone(names[1..], entries, url);
      assert forall i :: 1 <= i < |names| ==> names[i] == names[1..][i - 1];
    }
  }

  /** `caches.match` answers from the first cache that holds the URL. */
  lemma {:induction false} MatchInFirst(names: seq<string>, entries: map<string, map<string, Response>>, url: string, i: nat)
    requires i < |names| && Holds(entries, url)(names[i])
    requires forall j :: 0 <= j < i ==> !Holds(entries, url)(names[j])
    ensures MatchIn(names, entries, url) == Some(entries[names[i]][url])
    decreases i
  {
    if i > 0 {
      MatchInFirst(names[1..], entries, url, i - 1);
    }
  }

  /** Opening and storing keep the storage well formed. */
  lemma PutWellformed(s: Storage, name: string, url: string, response: Response)
    requires Wellformed(s)
    ensures Wellformed(Open(s, name)) && Wellformed(Put(s, name, url, response))
    ensures Put(s, name, url, response).entries[name][url] == response
    ensures forall n :: n in s.entries && n != name ==> Put(s, name, url, response).entries[n] == s.entries[n]
    ensures forall u :: name in s.entries && u in s.entries[name] && u != url ==>
              Put(s, name, url, response).entries[name][u] == s.entries[name][u]
  {
  }

  // ----- install -----

  /** `cache.addAll` accepts a response with a status from 200 to 299. */
  predicate Ok(r: Option<Response>) {
    r.Some? && 200 <= r.value.status <= 299
  }

  function ShellEntries(net: string -> Option<Response>): map<string, Response>
    requires forall u :: u in Shell ==> Ok(net(u))
  {
    map u | u in Shell && net(u).Some? :: net(u).value
  }

  /**
    install: the current cache is opened, and `cache.addAll` stores the
    whole shell when every fetch of it succeeds, and nothing otherwise.
  */
  function Installed(s: Storage, current: string, net: string -> Option<Response>): Storage {
    var o := Open(s, current);
    if forall u :: u in Shell ==> Ok(net(u)) then
      o.(entries := o.entries[current := o.entries[current] + ShellEntries(net)])
    else o
  }

  /** After a successful install the current cache holds every shell URL with the fetched response. */
  lemma InstalledShell(s: Storage, current: string, net: string -> Option<Response>)
    requires Wellformed(s)
    ensures Wellformed(Installed(s, current, net))
    ensures (forall u :: u in Shell ==> Ok(net(u))) ==>
              forall u :: u in Shell ==> (u in Installed(s, current, net).entries[current]
                                          && Installed(s, current, net).entries[current][u] == net(u).value)
    ensures !(forall u :: u in Shell ==> Ok(net(u))) ==> Installed(s, current, net) == Open(s, current)
  {
  }

  // ----- activate -----

  function IsName(current: string): string -> bool {
    n => n == current
  }

  /** The entries left after deleting every cache named in `names` other than `current`. */
  function Dropped(entries: map<string, map<string, Response>>, names: seq<string>, current: string)
    : map<string, map<string, Response>>
  {
    map n | n in entries && (n == current || n !in names) :: entries[n]
  }

  /** activate: every cache other than the current one is deleted. */
  function Activated(s: Storage, current: string): Storage {
    Storage(Keep(s.names, IsName(current)), Dropped(s.entries, s.names, current))
  }

  /** On well-formed storage activation leaves the current cache, untouched, and nothing else. */
  lemma ActivatedKeepsCurrent(s: Storage, current: string)
    requires Wellformed(s)
    ensures Wellformed(Activated(s, current))
    ensures Activated(s, current).names == (if current in s.names then [current] else [])
    ensures current in s.entries ==> Activated(s, current).entries == map[current := s.entries[current]]
    ensures current !in s.entries ==> Activated(s, current).entries == map[]
  {
    var a := Activated(s, current);
    KeepIn(s.names, IsName(current));
    KeepOne(s.names, current);
    if current in s.entries {
      assert a.entries.Keys == {current};
    } else {
      assert a.entries.Keys == {};
    }
  }

  /** Keeping one name out of distinct names leaves it once, or not at all. */
  lemma {:induction false} KeepOne(names: seq<string>, current: string)
    requires Distinct(names)
    ensures Keep(names, IsName(current)) == (if current in names then [current] else [])
    decreases |names|
  {
    if |names| > 0 {
      KeepOne(names[1..], current);
      if names[0] == current {
        assert current !in names[1..];
      } else {
        assert current in names <==> current in names[1..];
      }
    }
  }

  /** One step of the deletion loop. */
  lemma DroppedStep(entries: map<string, map<string, Response>>, names: seq<string>, n: string, current: string)
    ensures Dropped(entries, names + [n], current)
            == if n == current then Dropped(entries, names, current) else Dropped(entries, names, current) - {n}
  {
  }

  // ----- fetch -----

  /** Streamlit's own traffic, which the agent leaves to the browser. */
  predicate Internal(url: string) {
    Contains(url, "/_stcore/") || Contains(url, "/static/") || Contains(url, "/health")
  }

  /** The cache agent's answer: leave the request to the browser, or answer it (`None`: a network error). */
  datatype Handling = PassThrough | Served(response: Option<Response>, network: bool)

  /** A response is stored only if it is a 200 from the app's own origin. */
  predicate Cacheable(r: Response) {
    r.status == 200 && r.kind == "basic"
  }

  datatype Routed = Routed(handling: Handling, storage: Storage)

  /** The fetch handler: pass-through rules, then the caches, then the network, then the offline fallback. */
  function Route(s: Storage, current: string, req: Request, net: string -> Option<Response>): Routed {
    if req.verb != "GET" || Internal(req.url) then Routed(PassThrough, s)
    else match Match(s, req.url)
      case Some(r) => Routed(Served(Some(r), false), s)
      case None =>
        match net(req.url)
        case None => Routed(Served(if req.destination == "document" then Match(s, Landing) else None, true), s)
        case Some(r) =>
          if Cacheable(r) then Routed(Served(Some(r), true), Put(s, current, req.url, r))
          else Routed(Served(Some(r), true), s)
  }

  /** Requests other than GET, and Streamlit's internal ones, are left to the browser and change nothing. */
  lemma RoutePassesThrough(s: Storage, current: string, req: Request, net: string -> Option<Response>)
    ensures Route(s, current, req, net).handling == PassThrough <==> req.verb != "GET" || Internal(req.url)
    ensures Route(s, current, req, net).handling == PassThrough ==> Route(s, current, req, net).storage == s
  {
  }

  /** A cached URL is answered from the cache, without the network and without a change. */
  lemma RouteHit(s: Storage, current: string, req: Request, net: string -> Option<Response>, r: Response)
    requires req.verb == "GET" && !Internal(req.url) && Match(s, req.url) == Some(r)
    ensures Route(s, current, req, net) == Routed(Served(Some(r), false), s)
  {
  }

  /**
    On a miss the network's response is returned as it came; it is stored,
    under the request's URL in the current cache, exactly when it is a 200
    "basic" response.
  */
  lemma RouteMiss(s: Storage, current: string, req: Request, net: string -> Option<Response>, r: Response)
    requires req.verb == "GET" && !Internal(req.url) && Match(s, req.url) == None && net(req.url) == Some(r)
    ensures Route(s, current, req, net).handling == Served(Some(r), true)
    ensures Route(s, current, req, net).storage == if Cacheable(r) then Put(s, current, req.url, r) else s
  {
  }

  /** Offline, a page gets the cached landing page, if any, and any other request nothing. */
  lemma RouteOffline(s: Storage, current: string, req: Request, net: string -> Option<Response>)
    requires req.verb == "GET" && !Internal(req.url) && Match(s, req.url) == None && net(req.url) == None
    ensures Route(s, current, req, net) ==
            Routed(Served(if req.destination == "document" then Match(s, Landing) else None, true), s)
  {
  }

  /** A response stored on a miss answers the next request for that URL, from the cache. */
  lemma StoredThenHit(s: Storage, current: string, req: Request, net: string -> Option<Response>,
                      net2: string -> Option<Response>, r: Response)
    requires Wellformed(s)
    requires req.verb == "GET" && !Internal(req.url) && Match(s, req.url) == None && net(req.url) == Some(r)
    requires Cacheable(r)
    ensures var s2 := Route(s, current, req, net).storage;
            Wellformed(s2) && Route(s2, current, req, net2) == Routed(Served(Some(r), false), s2)
  {
    var s2 := Put(s, current, req.url, r);
    PutWellformed(s, current, req.url, r);
    MatchInNone(s.names, s.entries, req.url);
    var i :| 0 <= i < |s2.names| && s2.names[i] == current;
    forall j | 0 <= j < i
      ensures !Holds(s2.entries, req.url)(s2.names[j])
    {
      assert s2.names[j] != current;
      assert s2.names[j] == s.names[j];
    }
    MatchInFirst(s2.names, s2.entries, req.url, i);
  }

  /** After a successful install and activation every shell URL is served from the cache as it was fetched. */
  lemma InstallActivateServesShell(s: Storage, current: string, net: string -> Option<Response>, u: string)
    requires Wellformed(s) && forall v :: v in Shell ==> Ok(net(v))
    requires u in Shell
    ensures Match(Activated(Installed(s, current, net), current), u) == Some(net(u).value)
  {
    var i := Installed(s, current, net);
    InstalledShell(s, current, net);
    ActivatedKeepsCurrent(i, current);
    MatchInFirst([current], map[current := i.entries[current]], u, 0);
  }

  // ----- the agent -----

  /** The service worker: the name of its current cache and the cache storage it manages. */
  class CacheAgent {
    /** `CACHE_NAME`, which carries the time the worker script was loaded. */
    const current: string
    var names: seq<string>
    var entries: map<string, map<string, Response>>

    function State(): Storage
      reads this
    {
      Storage(names, entries)
    }

    constructor (current: string, s: Storage)
      ensures this.current == current && State() == s
    {
      this.current := current;
      names := s.names;
      entries := s.entries;
    }

    /** The install event. */
    method Install(net: string -> Option<Response>)
      modifies this
      ensures State() == Installed(old(State()), current, net)
    {
      if current !in entries {
        names := names + [current];
        entries := entries[current := map[]];
      }
      if forall u :: u in Shell ==> Ok(net(u)) {
        entries := entries[current := entries[current] + ShellEntries(net)];
      }
    }

    /** The activate event: each old cache name is deleted in turn. */
    method Activate()
      modifies this
      ensures State() == Activated(old(State()), current)
    {
      var all := names;
      var kept: seq<string> := [];
      var i := 0;
      while i < |all|
        invariant 0 <= i <= |all|
        invariant kept == Keep(all[..i], IsName(current))
        invariant entries == Dropped(old(entries), all[..i], current)
      {
        TakeSnoc(all, i);
        KeepSnoc(all[..i], all[i], IsName(current));
        DroppedStep(old(entries), all[..i], all[i], current);
        if all[i] == current {
          kept := kept + [all[i]];
        } else {
          entries := entries - {all[i]};
        }
        i := i + 1;
      }
      TakeAll(all);
      names := kept;
    }

    /** The fetch event: the handling of the request, and the caches updated on a cacheable miss. */
    method Fetch(req: Request, net: string -> Option<Response>) returns (h: Handling)
      modifies this
      ensures Routed(h, State()) == Route(old(State()), current, req, net)
    {
      if req.verb != "GET" || Internal(req.url) {
        return PassThrough;
      }
      var hit := Match(State(), req.url);
      if hit.Some? {
        return Served(hit, false);
      }
      var r := net(req.url);
      if r.None? {
        if req.destination == "document" {
          return Served(Match(State(), Landing), true);
        }
        return Served(None, true);
      }
      if Cacheable(r.value) {
        if current !in entries {
          names := names + [current];
          entries := entries[current := map[]];
        }
        entries := entries[current := entries[current][req.url := r.value]];
      }
      return Served(r, true);
    }
  }

  // ----- push and notification clicks -----

  /** The notification shown on a push: the pushed text, or a default message when the push has no data. */
  datatype Shown = Shown(title: string, body: string, icon: string, tag: string, actions: seq<string>)

  function Pushed(data: Option<string>): (n: Shown)
    ensures n.actions == ["explore", "close"] && n.title == "Insaka Conference"
    ensures data.Some? ==> n.body == data.value
    ensures data.None? ==> n.body == "New conference update available!"
  {
    Shown("Insaka Conference", data.GetOr("New conference update available!"), "/assets/logos/insaka.jpg",
          "insaka-notification", ["explore", "close"])
  }

  /** A notification click closes the notification and opens the window its action names, if any. */
  datatype Click = Click(closed: bool, opens: Option<string>)

  function Clicked(action: string): (c: Click)
    ensures c.closed
    ensures c.opens.None? <==> action == "close"
    ensures action == "explore" ==> c.opens == Some("/pages/1_Delegate_Dashboard.py")
    ensures action != "explore" && action != "close" ==> c.opens == Some("/")
  {
    if action == "explore" then Click(true, Some("/pages/1_Delegate_Dashboard.py"))
    else if action == "close" then Click(true, None)
    else Click(true, Some("/"))
  }
}
