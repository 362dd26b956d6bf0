/** The sort filter's session: searches and presents over its result sets, and the record list that is
    filled and sorted in place. src/filter_sort.cpp:328-353 and 507-684. */
module SortFrontend {
  import opened Ordering
  import opened SortWindows
  import opened Options

  /** The sorted records of a set in one record syntax (which may be absent). comp is the record
      composition they were fetched in; the source does not keep it, and nothing here reads it to answer. */
  datatype Cached = Cached(syntax: Option<string>, comp: Option<string>, records: seq<Record>)

  datatype ResultSet = ResultSet(hitCount: int, lists: seq<Cached>)

  type Sets = map<string, ResultSet>

  /** The configuration: how much to prefetch, and in which order to present. */
  datatype Config = Config(prefetch: int, ascending: bool)

  datatype Reply = Diagnostic | Reply(records: seq<Option<Record>>) | Other

  /** The backend's search response: its count, and records if it returns any; or another response. */
  datatype SearchResponse = SearchResponse(count: int, records: Option<seq<Record>>) | NoSearchResponse

  function FindList(lists: seq<Cached>, syntax: Option<string>): Option<Cached> {
    if lists == [] then None
    else if lists[0].syntax == syntax then Some(lists[0])
    else FindList(lists[1..], syntax)
  }

  /** handle_records: the result set, and the records that go to the client. */
  function Handled(cfg: Config, set': ResultSet, records: Option<seq<Record>>, start: int, syntax: Option<string>,
                   comp: Option<string>, backend: Backend): (r: (ResultSet, Reply))
  {
    if records.None? then (set', Other)
    else if start != 1 || FindList(set'.lists, syntax).Some? then (set', Reply(Somes(records.value)))
    else
      var list := Sorted(Fetched(cfg, set', records.value, backend));
      (set'.(lists := set'.lists + [Cached(syntax, comp, list)]), Reply(Window(list, 1, |records.value|, cfg.ascending)))
  }

  /** What the prefetch has fetched when the first response held these records. */
  function Fetched(cfg: Config, set': ResultSet, first: seq<Record>, backend: Backend): seq<Record> {
    Fetch(backend, first, first != [], if cfg.prefetch > set'.hitCount then set'.hitCount else cfg.prefetch)
  }

  /** comp is what the request's piggyback settings give for its count; unset is what the hit count
      holds before the response. */
  function Search(cfg: Config, sets: Sets, name: string, replace: bool, syntax: Option<string>, comp: Option<string>,
                  response: SearchResponse, backend: Backend, unset: int): (r: (Sets, Reply))
  {
    if name in sets && !replace then (sets, Diagnostic)
    else
      match response
      case NoSearchResponse => (sets[name := ResultSet(unset, [])], Other)
      case SearchResponse(count, records) =>
        var (set', reply) := Handled(cfg, ResultSet(count, []), records, 1, syntax, comp, backend);
        (sets[name := set'], reply)
  }

  /** Whether a present is answered from the record list. */
  predicate FromList(sets: Sets, name: string, syntax: Option<string>, start: int, number: int) {
    name in sets && var list := FindList(sets[name].lists, syntax); list.Some? && start - 1 + number <= |list.value.records|
  }

  datatype Request = Request(name: string, syntax: Option<string>, comp: Option<string>, start: int, number: int)

  /** The list is chosen by the syntax alone. */
  function Present(cfg: Config, sets: Sets, req: Request, backend: Backend): (r: (Sets, Reply)) {
    if req.name !in sets then (sets, Diagnostic)
    else if FromList(sets, req.name, req.syntax, req.start, req.number) then
      (sets, Reply(Window(FindList(sets[req.name].lists, req.syntax).value.records, req.start, req.number, cfg.ascending)))
    else
      var (set', reply) := Handled(cfg, sets[req.name], backend(req.start, req.number), req.start, req.syntax, req.comp, backend);
      (sets[req.name := set'], reply)
  }

  // ---------- what the lists are ----------

  /** The backend's result sets, as it would present them in a syntax and a composition. */
  type Server = (string, Option<string>, Option<string>) -> seq<Record>

  ghost predicate ListOk(list: seq<Record>, set': seq<Record>) {
    exists k: nat :: k <= |set'| && IsSortOf(list, set', k)
  }

  ghost predicate IsSortOf(list: seq<Record>, set': seq<Record>, k: nat)
    requires k <= |set'|
  {
    list == Sorted(set'[..k])
  }

  /** Every record list is the stable sort of the beginning of the backend's result set, in the
      composition it was made with. */
  ghost predicate Inv(sets: Sets, server: Server) {
    forall name :: name in sets ==> ListsOk(sets[name].lists, name, server) && OnePerSyntax(sets[name].lists)
  }

  ghost predicate ListsOk(lists: seq<Cached>, name: string, server: Server) {
    forall i :: 0 <= i < |lists| ==> ListOk(lists[i].records, server(name, lists[i].syntax, lists[i].comp))
  }

  predicate OnePerSyntax(lists: seq<Cached>) {
    forall i, j :: 0 <= i < j < |lists| ==> lists[i].syntax != lists[j].syntax
  }

  /** The list found is the only one of its syntax, and there is none for an unknown syntax. */
  lemma {:induction false} Found(lists: seq<Cached>, syntax: Option<string>) returns (i: nat)
    ensures FindList(lists, syntax).Some? ==> i < |lists| && FindList(lists, syntax).value == lists[i] && lists[i].syntax == syntax
    ensures FindList(lists, syntax).None? ==> forall j :: 0 <= j < |lists| ==> lists[j].syntax != syntax
  {
    i := 0;
    if lists != [] && lists[0].syntax != syntax {
      i := Found(lists[1..], syntax);
      i := i + 1;
      if FindList(lists, syntax).None? {
        forall j | 0 <= j < |lists| ensures lists[j].syntax != syntax {
          assert j > 0 ==> lists[j] == lists[1..][j - 1];
        }
      }
    }
  }

  lemma HandleKeeps(cfg: Config, set': ResultSet, records: Option<seq<Record>>, start: int, syntax: Option<string>,
                    comp: Option<string>, backend: Backend, name: string, server: Server)
    requires ListsOk(set'.lists, name, server) && OnePerSyntax(set'.lists) && Serves(backend, server(name, syntax, comp))
    requires records.Some? && start == 1 ==> records.value <= server(name, syntax, comp)
    ensures ListsOk(Handled(cfg, set', records, start, syntax, comp, backend).0.lists, name, server)
    ensures OnePerSyntax(Handled(cfg, set', records, start, syntax, comp, backend).0.lists)
  {
    if records.Some? && start == 1 && FindList(set'.lists, syntax).None? {
      var all := server(name, syntax, comp);
      var fetched := Fetched(cfg, set', records.value, backend);
      FetchIsPrefix(backend, all, records.value, records.value != [], if cfg.prefetch > set'.hitCount then set'.hitCount else cfg.prefetch);
      assert fetched == all[..|fetched|];
      assert IsSortOf(Sorted(fetched), all, |fetched|);
      assert ListOk(Sorted(fetched), all);
      hide ListOk, Fetch, Sorted;
      var i := Found(set'.lists, syntax);
      OneMoreList(set'.lists, Cached(syntax, comp, Sorted(fetched)), name, server);
    }
  }

  lemma OneMoreList(lists: seq<Cached>, x: Cached, name: string, server: Server)
    requires ListsOk(lists, name, server) && OnePerSyntax(lists) && ListOk(x.records, server(name, x.syntax, x.comp))
    requires forall j :: 0 <= j < |lists| ==> lists[j].syntax != x.syntax
    ensures ListsOk(lists + [x], name, server) && OnePerSyntax(lists + [x])
  {
    hide ListOk;
    var both := lists + [x];
    forall i | 0 <= i < |both| ensures ListOk(both[i].records, server(name, both[i].syntax, both[i].comp)) {
      if i < |lists| { assert both[i] == lists[i]; }
    }
  }

  /** A search gives its name a new result set at the backend; the others stay. */
  lemma SearchKeeps(cfg: Config, sets: Sets, name: string, replace: bool, syntax: Option<string>, comp: Option<string>,
                    response: SearchResponse, backend: Backend, unset: int, server: Server, server': Server)
    requires Inv(sets, server) && Serves(backend, server'(name, syntax, comp))
    requires Replaced(sets, name, replace, server, server')
    requires response.SearchResponse? && response.records.Some? ==> response.records.value <= server'(name, syntax, comp)
    ensures Inv(Search(cfg, sets, name, replace, syntax, comp, response, backend, unset).0, server')
  {
    hide ListOk, Handled, OnePerSyntax;
    forall n | n in sets && n != name ensures ListsOk(sets[n].lists, n, server') && OnePerSyntax(sets[n].lists) {
      assert ListsOk(sets[n].lists, n, server);
    }
    if !(name in sets && !replace) {
      NoLists(name, server');
      if response.SearchResponse? {
        HandleKeeps(cfg, ResultSet(response.count, []), response.records, 1, syntax, comp, backend, name, server');
      }
    }
  }

  lemma NoLists(name: string, server: Server)
    ensures ListsOk([], name, server) && OnePerSyntax([])
  {
  }

  /** The backend's sets before and after a search of this name. */
  ghost predicate Replaced(sets: Sets, name: string, replace: bool, server: Server, server': Server) {
    && (forall n, x, c :: n != name ==> server'(n, x, c) == server(n, x, c))
    && (name in sets && !replace ==> server' == server)
  }

  lemma PresentKeeps(cfg: Config, sets: Sets, req: Request, backend: Backend, server: Server)
    requires Inv(sets, server) && Serves(backend, server(req.name, req.syntax, req.comp))
    ensures Inv(Present(cfg, sets, req, backend).0, server)
  {
    hide ListOk, Handled, FromList;
    if req.name in sets && !FromList(sets, req.name, req.syntax, req.start, req.number) {
      var records := backend(req.start, req.number);
      if records.Some? && req.start == 1 {
        assert Part(records.value, server(req.name, req.syntax, req.comp), 1);
      }
      HandleKeeps(cfg, sets[req.name], records, req.start, req.syntax, req.comp, backend, req.name, server);
    }
  }

  // ---------- every run ----------

  /** What the client sends, with what the backend answers to it. */
  datatype Event =
    | DoSearch(name: string, replace: bool, syntax: Option<string>, comp: Option<string>, response: SearchResponse,
               unset: int, backend: Backend)
    | DoPresent(req: Request, backend: Backend)

  /** What an event does to the session's sets and to the backend's. */
  ghost predicate Goes(cfg: Config, sets: Sets, server: Server, e: Event, sets': Sets, server': Server) {
    match e
    case DoSearch(name, replace, syntax, comp, response, unset, backend) =>
      && sets' == Search(cfg, sets, name, replace, syntax, comp, response, backend, unset).0
      && Replaced(sets, name, replace, server, server')
      && Serves(backend, server'(name, syntax, comp))
      && (response.SearchResponse? && response.records.Some? ==> response.records.value <= server'(name, syntax, comp))
    case DoPresent(req, backend) =>
      && sets' == Present(cfg, sets, req, backend).0
      && server' == server
      && Serves(backend, server(req.name, req.syntax, req.comp))
  }

  /** A session from its beginning. */
  ghost predicate Run(cfg: Config, states: seq<Sets>, servers: seq<Server>, events: seq<Event>) {
    && |states| == |servers| == |events| + 1 && states[0] == map[]
    && forall i :: 0 <= i < |events| ==> Goes(cfg, states[i], servers[i], events[i], states[i + 1], servers[i + 1])
  }

  lemma {:induction false} RunKeeps(cfg: Config, states: seq<Sets>, servers: seq<Server>, events: seq<Event>, i: nat)
    requires Run(cfg, states, servers, events) && i < |states|
    ensures Inv(states[i], servers[i])
    decreases i
  {
    hide Inv, Replaced, Search, Present, Serves;
    if i == 0 {
      NothingCached(servers[0]);
    } else {
      RunKeeps(cfg, states, servers, events, i - 1);
      var (sets, server, server') := (states[i - 1], servers[i - 1], servers[i]);
      assert Goes(cfg, sets, server, events[i - 1], states[i - 1 + 1], servers[i - 1 + 1]);
      match events[i - 1]
      case DoSearch(name, replace, syntax, comp, response, unset, backend) =>
        SearchKeeps(cfg, sets, name, replace, syntax, comp, response, backend, unset, server, server');
      case DoPresent(req, backend) => PresentKeeps(cfg, sets, req, backend, server);
    }
  }

  lemma NothingCached(server: Server)
    ensures Inv(map[], server)
  {
  }

  /** The reply is a slice of the sorted beginning of this set. */
  ghost predicate AnswersFrom(cfg: Config, reply: Reply, set': seq<Record>, start: int, number: int) {
    exists k: nat :: k <= |set'| && start - 1 + number <= k && SliceReply(reply, Sorted(set'[..k]), start, number, cfg.ascending)
  }

  /** A present answered from a list is a slice of the set in the composition the list was made with. */
  lemma PresentIsSliceOfList(cfg: Config, sets: Sets, req: Request, backend: Backend, server: Server)
    requires Inv(sets, server) && FromList(sets, req.name, req.syntax, req.start, req.number) && 1 <= req.start && 0 <= req.number
    ensures var made := FindList(sets[req.name].lists, req.syntax).value.comp;
            AnswersFrom(cfg, Present(cfg, sets, req, backend).1, server(req.name, req.syntax, made), req.start, req.number)
  {
    var i := Found(sets[req.name].lists, req.syntax);
    var found := sets[req.name].lists[i];
    assert ListsOk(sets[req.name].lists, req.name, server);
    hide FindList, ListOk, AnswersFrom, OnePerSyntax, Window;
    assert ListOk(found.records, server(req.name, found.syntax, found.comp));
    WindowAnswers(cfg, found.records, server(req.name, req.syntax, found.comp), req.start, req.number);
  }

  lemma WindowAnswers(cfg: Config, list: seq<Record>, all: seq<Record>, start: int, number: int)
    requires ListOk(list, all) && 1 <= start && 0 <= number && start - 1 + number <= |list|
    ensures AnswersFrom(cfg, Reply(Window(list, start, number, cfg.ascending)), all, start, number)
  {
    hide Sorted, Window, Order, Somes;
    var k: nat :| k <= |all| && IsSortOf(list, all, k);
    SortedIsStable(all[..k], "");
    WindowIsSlice(list, start, number, cfg.ascending);
  }

  /** The composition plays no part in the choice of the list: the reply is right for every backend
      that can have led here if and only if the composition asked for is the one the list was made with
      (or nothing is asked for at all). */
  lemma PresentIsSlice(cfg: Config, sets: Sets, req: Request, backend: Backend, known: Server)
    requires Inv(sets, known) && FromList(sets, req.name, req.syntax, req.start, req.number) && 1 <= req.start && 0 <= req.number
    ensures (forall server :: Inv(sets, server) ==>
               AnswersFrom(cfg, Present(cfg, sets, req, backend).1, server(req.name, req.syntax, req.comp), req.start, req.number))
            <==> (req.comp == FindList(sets[req.name].lists, req.syntax).value.comp || req.start - 1 + req.number == 0)
  {
    hide Inv, AnswersFrom, Present, FindList;
    var made := FindList(sets[req.name].lists, req.syntax).value.comp;
    if req.start - 1 + req.number == 0 {
      forall server | Inv(sets, server)
        ensures AnswersFrom(cfg, Present(cfg, sets, req, backend).1, server(req.name, req.syntax, req.comp), req.start, req.number)
      {
        NothingAsked(cfg, sets, req, backend, server(req.name, req.syntax, req.comp));
      }
    } else if req.comp == made {
      forall server | Inv(sets, server)
        ensures AnswersFrom(cfg, Present(cfg, sets, req, backend).1, server(req.name, req.syntax, req.comp), req.start, req.number)
      {
        PresentIsSliceOfList(cfg, sets, req, backend, server);
      }
    } else {
      var server := Emptied(known, req.name, req.syntax, req.comp);
      EmptiedKeeps(sets, req, known);
      NoSliceOfNothing(cfg, Present(cfg, sets, req, backend).1, req.start, req.number);
      assert server(req.name, req.syntax, req.comp) == [];
    }
  }

  lemma NothingAsked(cfg: Config, sets: Sets, req: Request, backend: Backend, all: seq<Record>)
    requires FromList(sets, req.name, req.syntax, req.start, req.number) && req.start == 1 && req.number == 0
    ensures AnswersFrom(cfg, Present(cfg, sets, req, backend).1, all, req.start, req.number)
  {
    assert all[..0] == [];
    assert SliceReply(Present(cfg, sets, req, backend).1, Sorted(all[..0]), 1, 0, cfg.ascending);
  }

  lemma NoSliceOfNothing(cfg: Config, reply: Reply, start: int, number: int)
    requires start - 1 + number > 0
    ensures !AnswersFrom(cfg, reply, [], start, number)
  {
  }

  /** The same backend, but without records in one composition. */
  function Emptied(server: Server, name: string, syntax: Option<string>, comp: Option<string>): Server {
    (n, x, c) => if n == name && x == syntax && c == comp then [] else server(n, x, c)
  }

  lemma EmptiedKeeps(sets: Sets, req: Request, server: Server)
    requires Inv(sets, server) && req.name in sets && FindList(sets[req.name].lists, req.syntax).Some?
    requires FindList(sets[req.name].lists, req.syntax).value.comp != req.comp
    ensures Inv(sets, Emptied(server, req.name, req.syntax, req.comp))
  {
    hide ListOk, FindList;
    var server' := Emptied(server, req.name, req.syntax, req.comp);
    var k := Found(sets[req.name].lists, req.syntax);
    forall n | n in sets ensures ListsOk(sets[n].lists, n, server') {
      var lists := sets[n].lists;
      assert ListsOk(lists, n, server) && OnePerSyntax(lists);
      forall i | 0 <= i < |lists| ensures ListOk(lists[i].records, server'(n, lists[i].syntax, lists[i].comp)) {
        assert n == req.name && lists[i].syntax == req.syntax ==> i == k;
      }
    }
  }

  ghost predicate SliceReply(reply: Reply, list: seq<Record>, start: int, number: int, ascending: bool) {
    1 <= start && 0 <= number && start - 1 + number <= |list|
    && reply == Reply(Somes(Order(list, ascending)[start - 1..start - 1 + number]))
  }

  lemma {:induction false} FetchExtends(backend: Backend, acc: seq<Record>, more: bool, endPos: int)
    ensures acc <= Fetch(backend, acc, more, endPos)
    decreases endPos - |acc|, if more then 1 else 0
  {
    if more && |acc| + 1 <= endPos {
      var answer := backend(|acc| + 1, endPos - |acc|);
      if answer.Some? && answer.value != [] {
        FetchExtends(backend, acc + answer.value, true, endPos);
        assert acc <= acc + answer.value;
      }
    }
  }

  /** The records that come with the response that makes a list are answered with the beginning of the
      sorted list, and not in the backend's order. */
  lemma FirstReplyIsSlice(cfg: Config, set': ResultSet, records: seq<Record>, syntax: Option<string>, comp: Option<string>,
                          backend: Backend)
    requires FindList(set'.lists, syntax).None?
    ensures var (after, reply) := Handled(cfg, set', Some(records), 1, syntax, comp, backend);
            && FindList(after.lists, syntax) == Some(Cached(syntax, comp, Sorted(Fetched(cfg, set', records, backend))))
            && SliceReply(reply, Sorted(Fetched(cfg, set', records, backend)), 1, |records|, cfg.ascending)
  {
    var fetched := Fetched(cfg, set', records, backend);
    FetchExtends(backend, records, records != [], if cfg.prefetch > set'.hitCount then set'.hitCount else cfg.prefetch);
    SortedIsStable(fetched, "");
    WindowIsSlice(Sorted(fetched), 1, |records|, cfg.ascending);
    FoundLast(set'.lists, Cached(syntax, comp, Sorted(fetched)));
  }

  lemma {:induction false} FoundLast(lists: seq<Cached>, x: Cached)
    requires FindList(lists, x.syntax).None?
    ensures FindList(lists + [x], x.syntax) == Some(x)
  {
    if lists == [] {
      assert lists + [x] == [x];
    } else {
      FoundLast(lists[1..], x);
      assert (lists + [x])[1..] == lists[1..] + [x];
    }
  }

  // ---------- which records a list is made of ----------

  /** first begins the set, and with what is fetched up to m the list is the sort of the first k records. */
  ghost predicate MadeOf(list: seq<Record>, all: seq<Record>, first: seq<Record>, m: int) {
    var k := if |first| > m then |first| else m;
    k <= |all| && list == Sorted(all[..k])
  }

  lemma FetchedIsMadeOf(cfg: Config, set': ResultSet, first: seq<Record>, backend: Backend, all: seq<Record>, m: int)
    requires m <= cfg.prefetch && m <= set'.hitCount && (m == cfg.prefetch || m == set'.hitCount)
    requires first != [] && first <= all && Serves(backend, all) && AnswersWithin(backend, m)
    ensures MadeOf(Sorted(Fetched(cfg, set', first, backend)), all, first, m)
  {
    hide Serves, AnswersWithin, Sorted, Fetch;
    FetchIsExact(backend, all, first, m);
  }

  /** The list a search makes: with m the smaller of the configured prefetch and the hit count, the
      sort of the first m records, or of those of the response if they are more. */
  lemma SearchListIs(cfg: Config, sets: Sets, name: string, replace: bool, syntax: Option<string>, comp: Option<string>,
                     count: int, first: seq<Record>, backend: Backend, unset: int, all: seq<Record>, m: int)
    requires name in sets ==> replace
    requires m <= cfg.prefetch && m <= count && (m == cfg.prefetch || m == count)
    requires first != [] && first <= all && Serves(backend, all) && AnswersWithin(backend, m)
    ensures var sets' := Search(cfg, sets, name, replace, syntax, comp, SearchResponse(count, Some(first)), backend, unset).0;
            && sets'.Keys == sets.Keys + {name} && (forall n :: n in sets && n != name ==> sets'[n] == sets[n])
            && sets'[name].hitCount == count && |sets'[name].lists| == 1
            && var made := sets'[name].lists[0];
               made.syntax == syntax && made.comp == comp && MadeOf(made.records, all, first, m)
  {
    hide Serves, AnswersWithin, Fetched, MadeOf, Sorted;
    FetchedIsMadeOf(cfg, ResultSet(count, []), first, backend, all, m);
  }

  /** The list a present makes, when it begins at 1 and there is none in its syntax. */
  lemma PresentListIs(cfg: Config, sets: Sets, req: Request, backend: Backend, first: seq<Record>, all: seq<Record>, m: int)
    requires req.name in sets && req.start == 1 && backend(1, req.number) == Some(first)
    requires forall i :: 0 <= i < |sets[req.name].lists| ==> sets[req.name].lists[i].syntax != req.syntax
    requires m <= cfg.prefetch && m <= sets[req.name].hitCount && (m == cfg.prefetch || m == sets[req.name].hitCount)
    requires first != [] && first <= all && Serves(backend, all) && AnswersWithin(backend, m)
    ensures var (old', new') := (sets[req.name], Present(cfg, sets, req, backend).0);
            && new' == sets[req.name := new'[req.name]] && new'[req.name].hitCount == old'.hitCount
            && |new'[req.name].lists| == |old'.lists| + 1 && new'[req.name].lists[..|old'.lists|] == old'.lists
            && var made := new'[req.name].lists[|old'.lists|];
               made.syntax == req.syntax && made.comp == req.comp && MadeOf(made.records, all, first, m)
  {
    hide Serves, AnswersWithin, Fetched, MadeOf, Sorted;
    var i := Found(sets[req.name].lists, req.syntax);
    FetchedIsMadeOf(cfg, sets[req.name], first, backend, all, m);
  }

  /** No request of the prefetch reaches beyond m: backends that differ only there leave the same lists. */
  lemma PrefetchStaysWithin(cfg: Config, set': ResultSet, records: Option<seq<Record>>, start: int, syntax: Option<string>,
                            comp: Option<string>, backend: Backend, backend': Backend, m: int)
    requires m <= cfg.prefetch && m <= set'.hitCount && (m == cfg.prefetch || m == set'.hitCount)
    requires forall s, n :: SortWindows.Within(s, n, m) ==> backend'(s, n) == backend(s, n)
    ensures Handled(cfg, set', records, start, syntax, comp, backend') == Handled(cfg, set', records, start, syntax, comp, backend)
  {
    hide Sorted, Fetch;
    if records.Some? { FetchStaysWithin(backend, backend', records.value, records.value != [], m); }
  }

  // ---------- what is not answered with records ----------

  /** A search for a set that exists is refused without the replace indicator, and changes nothing; any
      other makes the name a set without lists if the backend sends no records. */
  lemma SearchWithoutRecords(cfg: Config, sets: Sets, name: string, replace: bool, syntax: Option<string>, comp: Option<string>,
                             response: SearchResponse, backend: Backend, unset: int)
    ensures name in sets && !replace ==>
              Search(cfg, sets, name, replace, syntax, comp, response, backend, unset) == (sets, Diagnostic)
    ensures !(name in sets && !replace) && (response.NoSearchResponse? || response.records.None?) ==>
              Search(cfg, sets, name, replace, syntax, comp, response, backend, unset)
              == (sets[name := ResultSet(if response.SearchResponse? then response.count else unset, [])], Other)
  {
  }

  /** A present of an unknown set is refused, and changes nothing. */
  lemma PresentOfUnknown(cfg: Config, sets: Sets, req: Request, backend: Backend)
    requires req.name !in sets
    ensures Present(cfg, sets, req, backend) == (sets, Diagnostic)
  {
  }

  // ---------- which list answers ----------

  /** A present of a set that has a list in its syntax is answered from the list exactly when the list
      reaches to its end; otherwise the backend is asked, and its records are passed on as they are. */
  lemma ListAnswers(cfg: Config, sets: Sets, req: Request, backend: Backend, i: nat)
    requires req.name in sets && OnePerSyntax(sets[req.name].lists)
    requires i < |sets[req.name].lists| && sets[req.name].lists[i].syntax == req.syntax
    ensures var list := sets[req.name].lists[i].records;
            var records := backend(req.start, req.number);
            Present(cfg, sets, req, backend) ==
              if req.start - 1 + req.number <= |list| then (sets, Reply(Window(list, req.start, req.number, cfg.ascending)))
              else (sets, if records.Some? then Reply(Somes(records.value)) else Other)
  {
    hide Window, Somes;
    var j := Found(sets[req.name].lists, req.syntax);
    assert sets == sets[req.name := sets[req.name]];
  }

  /** Without such a list the backend is asked. From any start but 1 its records are passed on. */
  lemma NoListPassesOn(cfg: Config, sets: Sets, req: Request, backend: Backend)
    requires req.name in sets && req.start != 1
    requires forall i :: 0 <= i < |sets[req.name].lists| ==> sets[req.name].lists[i].syntax != req.syntax
    ensures var records := backend(req.start, req.number);
            Present(cfg, sets, req, backend) == (sets, if records.Some? then Reply(Somes(records.value)) else Other)
  {
    hide Window, Somes;
    var j := Found(sets[req.name].lists, req.syntax);
    assert sets == sets[req.name := sets[req.name]];
  }

  // ---------- presents agree ----------

  lemma {:induction false} FoundStays(lists: seq<Cached>, more: seq<Cached>, syntax: Option<string>)
    requires FindList(lists, syntax).Some?
    ensures FindList(lists + more, syntax) == FindList(lists, syntax)
  {
    if lists[0].syntax != syntax {
      FoundStays(lists[1..], more, syntax);
      assert (lists + more)[1..] == lists[1..] + more;
    }
  }

  /** The record at a position of a reply. */
  predicate Shows(reply: Reply, start: int, position: int, r: Option<Record>) {
    reply.Reply? && 0 <= position - start < |reply.records| && reply.records[position - start] == r
  }

  /** A list that answers presents is never changed by another present, of whatever set and syntax. */
  lemma PresentLeavesList(cfg: Config, sets: Sets, req: Request, backend: Backend, n: string, x: Option<string>)
    requires n in sets && FindList(sets[n].lists, x).Some?
    ensures var sets' := Present(cfg, sets, req, backend).0;
            n in sets' && FindList(sets'[n].lists, x) == FindList(sets[n].lists, x)
  {
    hide FindList, Fetched;
    if n == req.name {
      forall more ensures FindList(sets[n].lists + more, x) == FindList(sets[n].lists, x) {
        FoundStays(sets[n].lists, more, x);
      }
    }
  }

  /** The backend, for each name, syntax and composition. */
  type Backends = (string, Option<string>, Option<string>) -> Backend

  function For(backends: Backends, req: Request): Backend {
    backends(req.name, req.syntax, req.comp)
  }

  function AfterPresents(cfg: Config, sets: Sets, requests: seq<Request>, backends: Backends): Sets
    decreases |requests|
  {
    if requests == [] then sets
    else AfterPresents(cfg, Present(cfg, sets, requests[0], For(backends, requests[0])).0, requests[1..], backends)
  }

  lemma {:induction false} PresentsLeaveList(cfg: Config, sets: Sets, requests: seq<Request>, backends: Backends,
                                             n: string, x: Option<string>)
    requires n in sets && FindList(sets[n].lists, x).Some?
    ensures var sets' := AfterPresents(cfg, sets, requests, backends);
            n in sets' && FindList(sets'[n].lists, x) == FindList(sets[n].lists, x)
    decreases |requests|
  {
    hide FindList, Present;
    if requests != [] {
      var r := requests[0];
      PresentLeavesList(cfg, sets, r, For(backends, r), n, x);
      PresentsLeaveList(cfg, Present(cfg, sets, r, For(backends, r)).0, requests[1..], backends, n, x);
    }
  }

  /** Two presents answered from a list, with any other presents between them, give the same record at
      every position they share, whatever compositions they ask for. */
  lemma PresentsAgree(cfg: Config, sets: Sets, requests: seq<Request>, backends: Backends, a: Request, b: Request, position: int)
    requires a.name == b.name && a.syntax == b.syntax
    requires FromList(sets, a.name, a.syntax, a.start, a.number)
    requires FromList(AfterPresents(cfg, sets, requests, backends), b.name, b.syntax, b.start, b.number)
    requires a.start <= position < a.start + a.number && b.start <= position < b.start + b.number
    ensures var sets' := AfterPresents(cfg, sets, requests, backends);
            var r := Get(FindList(sets[a.name].lists, a.syntax).value.records, position - 1, cfg.ascending);
            && Shows(Present(cfg, sets, a, For(backends, a)).1, a.start, position, r)
            && Shows(Present(cfg, sets', b, For(backends, b)).1, b.start, position, r)
  {
    hide Get, FindList, AfterPresents;
    PresentsLeaveList(cfg, sets, requests, backends, a.name, a.syntax);
  }

  // ---------- a witness ----------

  /** Two records, brief and full, which sort the other way round in full. */
  function TwoCompositions(name: string, syntax: Option<string>, comp: Option<string>): seq<Record> {
    if comp == Some("B") then [Record("brief 1", "a"), Record("brief 2", "b")]
    else [Record("full 1", "b"), Record("full 2", "a")]
  }

  function Slice(all: seq<Record>): Backend {
    (start: int, number: int) =>
      if 1 <= start && 0 <= number && start - 1 + number <= |all| then Some(all[start - 1..start - 1 + number]) else None
  }

  /** A list made of the brief records answers a present of the full ones, whose first would be full 2. */
  lemma WrongComposition(backend: Backend)
    ensures var (cfg, all) := (Config(2, true), TwoCompositions("s", None, Some("B")));
            var sets := Search(cfg, map[], "s", true, None, Some("B"), SearchResponse(2, Some(all)), Slice(all), 0).0;
            && Inv(sets, TwoCompositions)
            && Present(cfg, sets, Request("s", None, Some("F"), 1, 1), backend).1 == Reply([Some(Record("brief 1", "a"))])
    ensures Sorted(TwoCompositions("s", None, Some("F"))) == [Record("full 2", "a"), Record("full 1", "b")]
  {
    hide Handled, Sorted, Get;
    var (cfg, all) := (Config(2, true), TwoCompositions("s", None, Some("B")));
    assert all[0..0] == [] && all[0..1] == [all[0]];
    var sets := Search(cfg, map[], "s", true, None, Some("B"), SearchResponse(2, Some(all)), Slice(all), 0).0;
    NothingCached(TwoCompositions);
    SearchKeeps(cfg, map[], "s", true, None, Some("B"), SearchResponse(2, Some(all)), Slice(all), 0, TwoCompositions, TwoCompositions);
    TwoSorted(all);
    TwoSwapped(TwoCompositions("s", None, Some("F")));
    FirstReplyIsSlice(cfg, ResultSet(2, []), all, None, Some("B"), Slice(all));
    assert Fetched(cfg, ResultSet(2, []), all, Slice(all)) == all;
    GetInside(all, 0, true);
  }

  lemma TwoSwapped(all: seq<Record>)
    requires |all| == 2 && Less(all[1].score, all[0].score)
    ensures Sorted(all) == [all[1], all[0]]
  {
    assert all[..1] == [all[0]] && all[..1][..0] == [];
    assert Sorted(all[..1]) == Insert(all[0], []) == [all[0]];
  }

  lemma TwoSorted(all: seq<Record>)
    requires |all| == 2 && Less(all[0].score, all[1].score)
    ensures Sorted(all) == all
  {
    LessIsStrictTotal(all[0].score, all[1].score);
    assert all[..1] == [all[0]] && all[..1][..0] == [];
    assert Sorted(all[..1]) == Insert(all[0], []) == [all[0]];
    assert Insert(all[1], [all[0]]) == [all[0]] + Insert(all[1], []);
  }

  // ---------- the objects ----------

  class RecordList {
    const syntax: Option<string>
    var list: seq<Record>

    constructor (syntax: Option<string>)
      ensures this.syntax == syntax && list == []
    {
      this.syntax, list := syntax, [];
    }

    /** The records of a response are added one by one. */
    method Add(records: seq<Record>)
      modifies this
      ensures list == old(list) + records
    {
      var i: nat := 0;
      while i < |records|
        invariant i <= |records| && list == old(list) + records[..i]
      {
        list := list + [records[i]];
        i := i + 1;
      }
    }

    method Read(pos: int, ascending: bool) returns (r: Option<Record>)
      ensures r == Get(list, pos, ascending)
    {
      var (it: nat, i) := (0, pos);
      if !ascending {
        i := |list| - pos - 1;
      }
      ghost var i0 := i;
      while it < |list|
        invariant it <= |list| && i == i0 - it && (it > 0 ==> i0 >= it)
      {
        if i <= 0 {
          return Some(list[it]);
        }
        it, i := it + 1, i - 1;
      }
      return None;
    }

    /** std::list::sort. */
    method Sort()
      modifies this
      ensures list == Sorted(old(list))
    {
      list := Sorted(list);
    }

    method ReadWindow(start: int, number: int, ascending: bool) returns (r: seq<Option<Record>>)
      ensures r == Window(list, start, number, ascending)
    {
      r := [];
      var i := 0;
      while i < number
        invariant 0 <= i && (number > 0 ==> i <= number) && (number <= 0 ==> i == 0)
        invariant r == Window(list, start, number, ascending)[..i]
      {
        var record := Read(i + start - 1, ascending);
        r := r + [record];
        i := i + 1;
      }
    }
  }

  class Session {
    const cfg: Config
    var sets: Sets

    constructor (cfg: Config)
      ensures this.cfg == cfg && sets == map[]
    {
      this.cfg, sets := cfg, map[];
    }

    /** The search for a list in the record syntax. */
    method Find(lists: seq<Cached>, syntax: Option<string>) returns (r: Option<Cached>)
      ensures r == FindList(lists, syntax)
    {
      var it: nat := 0;
      assert lists[0..] == lists;
      while it < |lists|
        invariant it <= |lists| && FindList(lists, syntax) == FindList(lists[it..], syntax)
      {
        assert lists[it..][0] == lists[it] && lists[it..][1..] == lists[it + 1..];
        if lists[it].syntax == syntax {
          return Some(lists[it]);
        }
        it := it + 1;
      }
      return None;
    }

    /** The prefetch loop. */
    method Prefetch(rlp: RecordList, first: seq<Record>, endPos: int, backend: Backend)
      requires rlp.list == first
      modifies rlp
      ensures rlp.list == Fetch(backend, first, first != [], endPos)
    {
      var (i, pos) := (|first|, |first| + 1);
      while i != 0 && pos <= endPos
        invariant pos == |rlp.list| + 1 && i >= 0
        invariant Fetch(backend, rlp.list, i != 0, endPos) == Fetch(backend, first, first != [], endPos)
        decreases endPos - pos, i
      {
        i := 0;
        var response := backend(pos, endPos - pos + 1);
        match response {
          case None =>
          case Some(records) =>
            rlp.Add(records);
            i, pos := |records|, pos + |records|;
        }
      }
    }

    method HandleRecords(set': ResultSet, records: Option<seq<Record>>, start: int, syntax: Option<string>,
                         comp: Option<string>, backend: Backend) returns (after: ResultSet, reply: Reply)
      ensures (after, reply) == Handled(cfg, set', records, start, syntax, comp, backend)
    {
      after := set';
      if records.None? {
        return after, Other;
      }
      reply := Reply(Somes(records.value));
      if start == 1 {
        var found := Find(set'.lists, syntax);
        if found.Some? {
          return;
        }
        var rlp := new RecordList(syntax);
        rlp.Add(records.value);
        assert rlp.list == records.value;
        var endPos := cfg.prefetch;
        if endPos > set'.hitCount {
          endPos := set'.hitCount;
        }
        Prefetch(rlp, records.value, endPos, backend);
        rlp.Sort();
        after := set'.(lists := set'.lists + [Cached(syntax, comp, rlp.list)]);
        var window := rlp.ReadWindow(1, |records.value|, cfg.ascending);
        reply := Reply(window);
      }
    }

    method HandleSearch(name: string, replace: bool, syntax: Option<string>, comp: Option<string>, response: SearchResponse,
                        backend: Backend, unset: int) returns (reply: Reply)
      modifies this`sets
      ensures (sets, reply) == Search(cfg, old(sets), name, replace, syntax, comp, response, backend, unset)
    {
      if name in sets && !replace {
        return Diagnostic;
      }
      var s := ResultSet(unset, []);
      match response {
        case NoSearchResponse =>
          reply := Other;
        case SearchResponse(count, records) =>
          s, reply := HandleRecords(s.(hitCount := count), records, 1, syntax, comp, backend);
      }
      sets := sets[name := s];
    }

    method HandlePresent(req: Request, backend: Backend) returns (reply: Reply)
      modifies this`sets
      ensures (sets, reply) == Present(cfg, old(sets), req, backend)
    {
      if req.name !in sets {
        return Diagnostic;
      }
      var list := Find(sets[req.name].lists, req.syntax);  // kept as a value, read as an object
      if list.Some? && req.start - 1 + req.number <= |list.value.records| {
        var rlp := new RecordList(req.syntax);
        rlp.Add(list.value.records);
        assert rlp.list == list.value.records;
        var window := rlp.ReadWindow(req.start, req.number, cfg.ascending);
        return Reply(window);
      }
      var set';
      set', reply := HandleRecords(sets[req.name], backend(req.start, req.number), req.start, req.syntax, req.comp, backend);
      sets := sets[req.name := set'];
    }
  }
}
