/**
 * The web application's context: the servlet and filter tables read from the deployment
 * descriptor, URL routing onto them, lazy instantiation of servlets and filters, and the
 * session table with its idle sweep.
 *
 * The path matcher and its pattern comparator are library code and appear as parameters: a
 * predicate `matches(pattern, url)` and a relation `better(p, q)` ("p sorts before q"). Class
 * loading by reflection appears as `newInstance(className)`, `None` when it fails. Times are
 * milliseconds.
 */
module Contexts {
  import opened Wrappers
  import opened Tables
  import opened Cookies

  /** A servlet or filter object. */
  type InstanceId = nat

  /** A `ServletHolder` or `FilterHolder`: the class to load and the instance once there is one. */
  datatype Holder = Holder(className: string, instance: Option<InstanceId>)

  datatype ContextError = ServletNotFound | FilterNotFound

  /** A `<servlet>` or `<filter>` element: its name and its class. */
  datatype Declaration = Declaration(name: string, className: string)

  /** A `<servlet-mapping>` or `<filter-mapping>` element: the name and its URL patterns. */
  datatype Mapping = Mapping(name: string, urlPatterns: seq<string>)

  /** The parts of `web.xml` the tables are built from, in document order. */
  datatype WebXml = WebXml(
    servlets: seq<Declaration>,
    servletMappings: seq<Mapping>,
    filters: seq<Declaration>,
    filterMappings: seq<Mapping>)

  datatype Session = Session(id: string, lastAccessed: int)

  /** A holder after `initAndGet…`: an empty holder receives whatever loading its class gave. */
  function Initialized(h: Holder, newInstance: string -> Option<InstanceId>): Holder
  {
    if h.instance.Some? then h else h.(instance := newInstance(h.className))
  }

  /** Once a holder has an instance, asking again returns that same instance. */
  lemma InstanceCreatedAtMostOnce(h: Holder, f: string -> Option<InstanceId>, g: string -> Option<InstanceId>)
    requires Initialized(h, f).instance.Some?
    ensures Initialized(Initialized(h, f), g) == Initialized(h, f)
    ensures h.instance.Some? ==> Initialized(h, f) == h
  {
  }

  /** The `(name, holder)` pairs the declarations put into a table. */
  function HolderPairs(decls: seq<Declaration>): (r: seq<(string, Holder)>)
    ensures |r| == |decls|
    ensures forall i :: 0 <= i < |decls| ==> r[i] == (decls[i].name, Holder(decls[i].className, None))
  {
    seq(|decls|, i requires 0 <= i < |decls| => (decls[i].name, Holder(decls[i].className, None)))
  }

  /** The `(pattern, name)` pairs of the mappings, mapping by mapping and pattern by pattern. */
  function MappingPairs(ms: seq<Mapping>): seq<(string, string)>
    decreases |ms|
  {
    if ms == [] then [] else MappingPairs(ms[..|ms| - 1]) + PatternPairs(ms[|ms| - 1])
  }

  function PatternPairs(m: Mapping): (r: seq<(string, string)>)
    ensures |r| == |m.urlPatterns|
    ensures forall j :: 0 <= j < |r| ==> r[j] == (m.urlPatterns[j], m.name)
  {
    seq(|m.urlPatterns|, j requires 0 <= j < |m.urlPatterns| => (m.urlPatterns[j], m.name))
  }

  /** The filter table after adding each name to the list of its pattern, creating lists on demand. */
  function Appended(t: map<string, seq<string>>, pairs: seq<(string, string)>): map<string, seq<string>>
    decreases |pairs|
  {
    if pairs == [] then t
    else
      var t' := Appended(t, pairs[..|pairs| - 1]);
      var p := pairs[|pairs| - 1];
      t'[p.0 := (if p.0 in t' then t'[p.0] else []) + [p.1]]
  }

  /** The names paired with `pattern`, in order. */
  function NamesFor(pairs: seq<(string, string)>, pattern: string): seq<string>
    decreases |pairs|
  {
    if pairs == [] then []
    else NamesFor(pairs[..|pairs| - 1], pattern) + (if pairs[|pairs| - 1].0 == pattern then [pairs[|pairs| - 1].1] else [])
  }

  /** Each pattern's filter list is its old list followed by every name mapped to it, in document order. */
  lemma {:induction false} FilterNamesInDocumentOrder(t: map<string, seq<string>>, pairs: seq<(string, string)>, pattern: string)
    ensures pattern in Appended(t, pairs) <==> pattern in t || NamesFor(pairs, pattern) != []
    ensures pattern in Appended(t, pairs) ==>
      Appended(t, pairs)[pattern] == (if pattern in t then t[pattern] else []) + NamesFor(pairs, pattern)
    decreases |pairs|
  {
    if pairs != [] {
      FilterNamesInDocumentOrder(t, pairs[..|pairs| - 1], pattern);
    }
  }

  /** A pattern named by several servlet mappings routes to the last of them. */
  lemma ServletMappingLastWins(ms: seq<Mapping>, pattern: string)
    ensures pattern in PutAll(map[], MappingPairs(ms)) <==> LastIndex(MappingPairs(ms), pattern).Some?
    ensures LastIndex(MappingPairs(ms), pattern).Some? ==>
      PutAll(map[], MappingPairs(ms))[pattern] == MappingPairs(ms)[LastIndex(MappingPairs(ms), pattern).value].1
  {
    PutAllLookup(map[], MappingPairs(ms), pattern);
  }

  /** Every pattern of the mapping table that matches `url`. */
  function MatchingPatterns<V>(table: map<string, V>, url: string, matches: (string, string) -> bool): set<string>
  {
    set p | p in table && matches(p, url)
  }

  ghost predicate Transitive(better: (string, string) -> bool)
  {
    forall a, b, c :: better(a, b) && better(b, c) ==> better(a, c)
  }

  ghost predicate Irreflexive(better: (string, string) -> bool)
  {
    forall a :: !better(a, a)
  }

  /**
   * The head of the matching patterns once sorted by the comparator: one candidate after
   * another, in the set's (unspecified) order, replacing the best so far with any that sorts
   * before it. For a strict order the result is a candidate nothing sorts before.
   */
  method BestPattern(candidates: set<string>, better: (string, string) -> bool) returns (best: string)
    requires candidates != {}
    ensures best in candidates
    ensures Transitive(better) && Irreflexive(better) ==> forall q :: q in candidates ==> !better(q, best)
  {
    var first :| first in candidates;
    best := first;
    var rest := candidates - {first};
    while rest != {}
      invariant rest <= candidates && best in candidates && best !in rest
      invariant Transitive(better) && Irreflexive(better) ==>
        forall q :: q in candidates && q !in rest ==> !better(q, best)
      decreases rest
    {
      var q :| q in rest;
      if better(q, best) {
        best := q;
      }
      rest := rest - {q};
    }
  }

  /** The sessions an idle sweep at `now` keeps: those idle for fewer than `expire` whole seconds. */
  function LiveSessions(sessions: map<string, Session>, now: int, expire: int): map<string, Session>
  {
    map id | id in sessions && !Expired(sessions[id], now, expire) :: sessions[id]
  }

  /** `Duration.between(lastAccessed, now).getSeconds() >= expire`; the seconds are rounded down. */
  predicate Expired(s: Session, now: int, expire: int)
  {
    (now - s.lastAccessed) / 1000 >= expire
  }

  /** The sweep removes exactly the expired sessions and leaves the others as they were. */
  lemma SweepRemovesExactlyExpired(sessions: map<string, Session>, now: int, expire: int, id: string)
    ensures id in LiveSessions(sessions, now, expire) <==> id in sessions && (now - sessions[id].lastAccessed) / 1000 < expire
    ensures id in LiveSessions(sessions, now, expire) ==> LiveSessions(sessions, now, expire)[id] == sessions[id]
  {
  }

  /** A session expired at `now` is expired at every later time, so sweeping again removes nothing new. */
  lemma ExpiryIsPermanent(s: Session, now: int, later: int, expire: int)
    requires now <= later && Expired(s, now, expire)
    ensures Expired(s, later, expire)
  {
    DivMonotone(now - s.lastAccessed, later - s.lastAccessed);
  }

  lemma DivMonotone(a: int, b: int)
    requires a <= b
    ensures a / 1000 <= b / 1000
  {
    var qa, ra := a / 1000, a % 1000;
    var qb, rb := b / 1000, b % 1000;
    assert a == qa * 1000 + ra && b == qb * 1000 + rb;
    assert (qa - qb) * 1000 < 1000;
  }

  lemma SweepIdempotent(sessions: map<string, Session>, now: int, expire: int)
    ensures LiveSessions(LiveSessions(sessions, now, expire), now, expire) == LiveSessions(sessions, now, expire)
  {
  }

  class ServletContext {
    /** Servlet name to holder. */
    var servlets: map<string, Holder>
    /** URL pattern to servlet name. */
    var servletMapping: map<string, string>
    /** Filter name to holder. */
    var filters: map<string, Holder>
    /** URL pattern to the names of its filters. */
    var filterMapping: map<string, seq<string>>
    /** Session id to session. */
    var sessions: map<string, Session>
    /** The servlet for URLs nothing else matches. */
    const defaultServletAlias: string
    /** Idle seconds after which the sweep drops a session. */
    const sessionExpireTime: int

    /** `init`: empty tables filled from the deployment descriptor by `parseConfig`, and no sessions. */
    constructor (config: WebXml, defaultServletAlias: string, sessionExpireTime: int)
      ensures servlets == PutAll(map[], HolderPairs(config.servlets))
      ensures servletMapping == PutAll(map[], MappingPairs(config.servletMappings))
      ensures filters == PutAll(map[], HolderPairs(config.filters))
      ensures filterMapping == Appended(map[], MappingPairs(config.filterMappings))
      ensures sessions == map[]
      ensures this.defaultServletAlias == defaultServletAlias && this.sessionExpireTime == sessionExpireTime
    {
      this.defaultServletAlias := defaultServletAlias;
      this.sessionExpireTime := sessionExpireTime;
      servlets := map[];
      servletMapping := map[];
      filters := map[];
      filterMapping := map[];
      sessions := map[];
      new;
      ParseConfig(config);
    }

    /** `parseConfig` on empty tables: declarations are put in order, mappings pattern by pattern. */
    method ParseConfig(config: WebXml)
      modifies this
      ensures servlets == PutAll(old(servlets), HolderPairs(config.servlets))
      ensures servletMapping == PutAll(old(servletMapping), MappingPairs(config.servletMappings))
      ensures filters == PutAll(old(filters), HolderPairs(config.filters))
      ensures filterMapping == Appended(old(filterMapping), MappingPairs(config.filterMappings))
      ensures sessions == old(sessions)
    {
      servlets := PutDeclarations(servlets, config.servlets);
      servletMapping := PutMappings(servletMapping, config.servletMappings);
      filters := PutDeclarations(filters, config.filters);
      filterMapping := AppendMappings(filterMapping, config.filterMappings);
    }

    /**
     * `initAndGetServlet`: an unknown name is `ServletNotFoundException`; otherwise the holder's
     * instance, created on first use (and still `null` when loading the class failed).
     */
    method InitAndGetServlet(alias: string, newInstance: string -> Option<InstanceId>)
      returns (r: Result<Option<InstanceId>, ContextError>)
      modifies this`servlets
      ensures alias !in old(servlets) ==> r == Err(ServletNotFound) && servlets == old(servlets)
      ensures alias in old(servlets) ==>
        servlets == old(servlets)[alias := Initialized(old(servlets)[alias], newInstance)]
      ensures alias in old(servlets) ==> r == Ok(servlets[alias].instance)
      ensures alias in old(servlets) && old(servlets)[alias].instance.Some? ==> r == Ok(old(servlets)[alias].instance)
    {
      if alias !in servlets {
        return Err(ServletNotFound);
      }
      var holder := servlets[alias];
      if holder.instance.None? {
        holder := holder.(instance := newInstance(holder.className));
        servlets := servlets[alias := holder];
      }
      r := Ok(holder.instance);
    }

    /** `initAndGetFilter`, the same for filters, with `FilterNotFoundException`. */
    method InitAndGetFilter(alias: string, newInstance: string -> Option<InstanceId>)
      returns (r: Result<Option<InstanceId>, ContextError>)
      modifies this`filters
      ensures alias !in old(filters) ==> r == Err(FilterNotFound) && filters == old(filters)
      ensures alias in old(filters) ==>
        filters == old(filters)[alias := Initialized(old(filters)[alias], newInstance)]
      ensures alias in old(filters) ==> r == Ok(filters[alias].instance)
      ensures alias in old(filters) && old(filters)[alias].instance.Some? ==> r == Ok(old(filters)[alias].instance)
    {
      if alias !in filters {
        return Err(FilterNotFound);
      }
      var holder := filters[alias];
      if holder.instance.None? {
        holder := holder.(instance := newInstance(holder.className));
        filters := filters[alias := holder];
      }
      r := Ok(holder.instance);
    }

    /**
     * `mapServlet` as written: an exact mapping first, then the best matching pattern, else the
     * default servlet. In the pattern case it looks the PATTERN up among the servlet names.
     */
    method MapServletAsWritten(url: string, matches: (string, string) -> bool, better: (string, string) -> bool,
                               newInstance: string -> Option<InstanceId>)
      returns (alias: string, r: Result<Option<InstanceId>, ContextError>)
      modifies this`servlets
      ensures url in servletMapping ==> alias == servletMapping[url]
      ensures url !in servletMapping && MatchingPatterns(servletMapping, url, matches) == {} ==> alias == defaultServletAlias
      ensures url !in servletMapping && MatchingPatterns(servletMapping, url, matches) != {} ==>
        alias in MatchingPatterns(servletMapping, url, matches)
      ensures alias !in old(servlets) ==> r == Err(ServletNotFound) && servlets == old(servlets)
      ensures alias in old(servlets) ==>
        servlets == old(servlets)[alias := Initialized(old(servlets)[alias], newInstance)] && r == Ok(servlets[alias].instance)
    {
      if url in servletMapping {
        alias := servletMapping[url];
      } else {
        var matching := MatchingPatterns(servletMapping, url, matches);
        if matching != {} {
          alias := BestPattern(matching, better);
        } else {
          alias := defaultServletAlias;
        }
      }
      r := InitAndGetServlet(alias, newInstance);
    }

    /**
     * `mapServlet` corrected: in the pattern case the servlet is the one the best pattern maps
     * to. With a strict comparator no other matching pattern sorts before the chosen one.
     */
    method MapServlet(url: string, matches: (string, string) -> bool, better: (string, string) -> bool,
                      newInstance: string -> Option<InstanceId>)
      returns (alias: string, r: Result<Option<InstanceId>, ContextError>)
      modifies this`servlets
      ensures url in servletMapping ==> alias == servletMapping[url]
      ensures url !in servletMapping && MatchingPatterns(servletMapping, url, matches) == {} ==> alias == defaultServletAlias
      ensures url !in servletMapping && MatchingPatterns(servletMapping, url, matches) != {} ==>
        exists p :: p in MatchingPatterns(servletMapping, url, matches) && alias == servletMapping[p] &&
          (Transitive(better) && Irreflexive(better) ==>
            forall q :: q in MatchingPatterns(servletMapping, url, matches) ==> !better(q, p))
      ensures alias !in old(servlets) ==> r == Err(ServletNotFound) && servlets == old(servlets)
      ensures alias in old(servlets) ==>
        servlets == old(servlets)[alias := Initialized(old(servlets)[alias], newInstance)] && r == Ok(servlets[alias].instance)
    {
      if url in servletMapping {
        alias := servletMapping[url];
      } else {
        var matching := MatchingPatterns(servletMapping, url, matches);
        if matching != {} {
          var best := BestPattern(matching, better);
          alias := servletMapping[best];
        } else {
          alias := defaultServletAlias;
        }
      }
      r := InitAndGetServlet(alias, newInstance);
    }

    /**
     * `mapFilter`: the filters of every matching pattern, each name once, in the (unspecified)
     * order of the name set; `order` lists the names behind the returned instances. An unknown
     * name is `FilterNotFoundException`; the holders initialised before it, listed in `order`,
     * keep their instances and every other holder stays as it was.
     */
    method MapFilter(url: string, matches: (string, string) -> bool, newInstance: string -> Option<InstanceId>)
      returns (r: Result<seq<Option<InstanceId>>, ContextError>, order: seq<string>)
      modifies this`filters
      ensures filters.Keys == old(filters).Keys
      ensures r.Ok? <==> FilterAliases(filterMapping, url, matches) <= old(filters).Keys
      ensures r.Err? ==> r.error == FilterNotFound
      ensures r.Ok? ==> (set a | a in order) == FilterAliases(filterMapping, url, matches)
      ensures r.Ok? ==> |order| == |r.value| && forall i, j :: 0 <= i < j < |order| ==> order[i] != order[j]
      ensures r.Ok? ==> forall i :: 0 <= i < |order| ==> r.value[i] == filters[order[i]].instance
      ensures r.Ok? ==> forall a :: a in old(filters) ==>
        filters[a] == if a in FilterAliases(filterMapping, url, matches) then Initialized(old(filters)[a], newInstance) else old(filters)[a]
      ensures r.Err? ==> forall a :: a in order ==> a in FilterAliases(filterMapping, url, matches)
      ensures r.Err? ==> forall a :: a in old(filters) ==>
        filters[a] == if a in order then Initialized(old(filters)[a], newInstance) else old(filters)[a]
    {
      var aliases := FilterAliases(filterMapping, url, matches);
      var rest := aliases;
      var instances := [];
      order := [];
      while rest != {}
        invariant rest <= aliases
        invariant (set a | a in order) == aliases - rest
        invariant |order| == |instances| && forall i, j :: 0 <= i < j < |order| ==> order[i] != order[j]
        invariant aliases - rest <= old(filters).Keys && filters.Keys == old(filters).Keys
        invariant forall i :: 0 <= i < |order| ==> instances[i] == filters[order[i]].instance
        invariant forall a :: a in old(filters) ==>
          filters[a] == if a in aliases - rest then Initialized(old(filters)[a], newInstance) else old(filters)[a]
        decreases rest
      {
        var a :| a in rest;
        var res := InitAndGetFilter(a, newInstance);
        if res.Err? {
          return Err(FilterNotFound), order;
        }
        instances := instances + [res.value];
        order := order + [a];
        rest := rest - {a};
      }
      r := Ok(instances);
    }

    /** `getSession(id)`: the stored session, or `null`. */
    function GetSession(id: string): (r: Option<Session>)
      reads this
      ensures r.Some? <==> id in sessions
      ensures r.Some? ==> r.value == sessions[id]
    {
      if id in sessions then Some(sessions[id]) else None
    }

    /**
     * `createSession`: a session under the fresh id `id`, stored, and the `JSESSIONID` cookie
     * the response receives.
     */
    method CreateSession(id: string, now: int) returns (s: Session, cookie: Cookie)
      modifies this`sessions
      ensures s == Session(id, now) && cookie == Cookie(SESSION_COOKIE, s.id)
      ensures sessions == old(sessions)[id := s]
      ensures GetSession(id) == Some(s)
    {
      s := Session(id, now);
      sessions := sessions[s.id := s];
      cookie := Cookie(SESSION_COOKIE, s.id);
    }

    /** `invalidateSession`: the session's id no longer finds anything; other sessions stay. */
    method InvalidateSession(s: Session)
      modifies this`sessions
      ensures sessions == old(sessions) - {s.id}
      ensures GetSession(s.id) == None
      ensures forall id :: id != s.id ==> GetSession(id) == old(GetSession(id))
    {
      sessions := sessions - {s.id};
    }

    /** `cleanIdleSessions`: one pass over the table removing every expired session. */
    method CleanIdleSessions(now: int)
      modifies this`sessions
      ensures sessions == LiveSessions(old(sessions), now, sessionExpireTime)
    {
      var keys := sessions.Keys;
      while keys != {}
        invariant keys <= old(sessions).Keys
        invariant forall id :: id in sessions <==>
          id in old(sessions) && (id in keys || !Expired(old(sessions)[id], now, sessionExpireTime))
        invariant forall id :: id in sessions ==> sessions[id] == old(sessions)[id]
        decreases keys
      {
        var id :| id in keys;
        if Expired(sessions[id], now, sessionExpireTime) {
          sessions := sessions - {id};
        }
        keys := keys - {id};
      }
    }
  }

  /** The filter names of every pattern matching `url`, without repetition. */
  function FilterAliases(table: map<string, seq<string>>, url: string, matches: (string, string) -> bool): set<string>
  {
    set p, a | p in table && matches(p, url) && a in table[p] :: a
  }

  /** The declaration loop of `parseConfig`: one `put` per element. */
  method PutDeclarations(t: map<string, Holder>, decls: seq<Declaration>) returns (r: map<string, Holder>)
    ensures r == PutAll(t, HolderPairs(decls))
  {
    r := t;
    var i := 0;
    while i < |decls|
      invariant 0 <= i <= |decls|
      invariant r == PutAll(t, HolderPairs(decls)[..i])
    {
      PutAllSnoc(t, HolderPairs(decls)[..i], HolderPairs(decls)[i]);
      assert HolderPairs(decls)[..i + 1] == HolderPairs(decls)[..i] + [HolderPairs(decls)[i]];
      r := r[decls[i].name := Holder(decls[i].className, None)];
      i := i + 1;
    }
    assert HolderPairs(decls)[..i] == HolderPairs(decls);
  }

  /** The pairs of one more mapping follow those of the mappings before it. */
  lemma MappingPairsSnoc(done: seq<Mapping>, m: Mapping)
    ensures MappingPairs(done + [m]) == MappingPairs(done) + PatternPairs(m)
  {
    assert (done + [m])[..|done|] == done;
  }

  /** The `<servlet-mapping>` loop of `parseConfig`: every pattern of every mapping, in order, is put. */
  method PutMappings(t: map<string, string>, ms: seq<Mapping>) returns (r: map<string, string>)
    ensures r == PutAll(t, MappingPairs(ms))
  {
    r := t;
    var i := 0;
    while i < |ms|
      invariant 0 <= i <= |ms|
      invariant r == PutAll(t, MappingPairs(ms[..i]))
    {
      assert ms[..i + 1] == ms[..i] + [ms[i]];
      MappingPairsSnoc(ms[..i], ms[i]);
      PutAllAppend(t, MappingPairs(ms[..i]), PatternPairs(ms[i]));
      r := PutPatterns(r, ms[i]);
      i := i + 1;
    }
    assert ms[..i] == ms;
  }

  /** The `<filter-mapping>` loop of `parseConfig`: each pattern's list grows by the mapping's filter. */
  method AppendMappings(t: map<string, seq<string>>, ms: seq<Mapping>) returns (r: map<string, seq<string>>)
    ensures r == Appended(t, MappingPairs(ms))
  {
    r := t;
    var i := 0;
    while i < |ms|
      invariant 0 <= i <= |ms|
      invariant r == Appended(t, MappingPairs(ms[..i]))
    {
      assert ms[..i + 1] == ms[..i] + [ms[i]];
      MappingPairsSnoc(ms[..i], ms[i]);
      AppendedAppend(t, MappingPairs(ms[..i]), PatternPairs(ms[i]));
      r := AppendPatterns(r, ms[i]);
      i := i + 1;
    }
    assert ms[..i] == ms;
  }

  /** The inner loop of a `<servlet-mapping>`: every pattern now names this servlet. */
  method PutPatterns(t: map<string, string>, m: Mapping) returns (r: map<string, string>)
    ensures r == PutAll(t, PatternPairs(m))
  {
    r := t;
    var j := 0;
    while j < |m.urlPatterns|
      invariant 0 <= j <= |m.urlPatterns|
      invariant r == PutAll(t, PatternPairs(m)[..j])
    {
      PutAllSnoc(t, PatternPairs(m)[..j], PatternPairs(m)[j]);
      assert PatternPairs(m)[..j + 1] == PatternPairs(m)[..j] + [PatternPairs(m)[j]];
      r := r[m.urlPatterns[j] := m.name];
      j := j + 1;
    }
    assert PatternPairs(m)[..j] == PatternPairs(m);
  }

  /** The inner loop of a `<filter-mapping>`: this filter is added to every pattern's list. */
  method AppendPatterns(t: map<string, seq<string>>, m: Mapping) returns (r: map<string, seq<string>>)
    ensures r == Appended(t, PatternPairs(m))
  {
    ghost var pairs := PatternPairs(m);
    r := t;
    var j := 0;
    while j < |m.urlPatterns|
      invariant 0 <= j <= |m.urlPatterns| == |pairs|
      invariant r == Appended(t, pairs[..j])
    {
      var p := m.urlPatterns[j];
      assert pairs[..j + 1][..j] == pairs[..j] && pairs[..j + 1][j] == (p, m.name);
      var values := if p in r then r[p] else [];
      r := r[p := values + [m.name]];
      j := j + 1;
    }
    assert pairs[..j] == pairs;
  }

  lemma {:induction false} PutAllAppend<K, V>(m: map<K, V>, a: seq<(K, V)>, b: seq<(K, V)>)
    ensures PutAll(m, a + b) == PutAll(PutAll(m, a), b)
    decreases |b|
  {
    if b == [] {
      assert a + b == a;
    } else {
      var b' := b[..|b| - 1];
      assert (a + b)[..|a + b| - 1] == a + b';
      PutAllAppend(m, a, b');
    }
  }

  lemma {:induction false} AppendedAppend(t: map<string, seq<string>>, a: seq<(string, string)>, b: seq<(string, string)>)
    ensures Appended(t, a + b) == Appended(Appended(t, a), b)
    decreases |b|
  {
    if b == [] {
      assert a + b == a;
    } else {
      var b' := b[..|b| - 1];
      assert (a + b)[..|a + b| - 1] == a + b';
      AppendedAppend(t, a, b');
    }
  }

  /**
   * The pattern branch of `mapServlet` as written, on a context whose only servlet `api` is
   * mapped to the pattern `/api/` followed by a wildcard: a request for `/api/users` looks up a
   * servlet named after the pattern and throws, where the corrected lookup loads `api`.
   */
  method PatternBranchMisroutes()
    returns (asWritten: Result<Option<InstanceId>, ContextError>, corrected: Result<Option<InstanceId>, ContextError>)
    ensures asWritten == Err(ServletNotFound)
    ensures corrected == Ok(Some(7))
  {
    var config := WebXml([Declaration("api", "ApiServlet")], [Mapping("api", ["/api/*"])], [], []);
    assert HolderPairs(config.servlets) == [("api", Holder("ApiServlet", None))];
    assert MappingPairs(config.servletMappings) == [("/api/*", "api")] by {
      assert config.servletMappings[..0] == [];
    }
    var ctx := new ServletContext(config, "default", 1800);
    assert ctx.servlets == map["api" := Holder("ApiServlet", None)];
    assert ctx.servletMapping == map["/api/*" := "api"];
    var matches := (p: string, u: string) => p == "/api/*";
    var better := (a: string, b: string) => false;
    var newInstance := (c: string) => Some(7);
    assert MatchingPatterns(ctx.servletMapping, "/api/users", matches) == {"/api/*"};
    var alias;
    alias, asWritten := ctx.MapServletAsWritten("/api/users", matches, better, newInstance);
    alias, corrected := ctx.MapServlet("/api/users", matches, better, newInstance);
  }
}
