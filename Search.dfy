/** The three search handlers (search_classes, search_clubs, find_professors)
    as one pipeline over a domain: the request guard, the nearest-neighbour
    matches (an input standing for the embedding call and the vector index),
    and the hydration of each match from the document store. */
module Search {
  import opened JsValues
  import opened Projectors

  datatype Domain = Courses | Clubs | Professors

  /** The vector-index namespace, which is also the document collection. */
  function Namespace(d: Domain): string
  {
    match d
    case Courses => "courses"
    case Clubs => "clubs"
    case Professors => "professors"
  }

  /** The domain's projector applied to a stored document and a match score. */
  function ProjectFor(d: Domain, data: Obj, score: Value): Obj
  {
    match d
    case Courses => ProjectCourse(data, score)
    case Clubs => ProjectClub(data, score)
    case Professors => ProjectProfessor(data, score)
  }

  /** The process-wide parameters `MODEL` and `TOPK`. */
  datatype Config = Config(model: string, topK: nat)

  const DefaultConfig: Config := Config("text-embedding-ada-002", 3)

  /** A nearest-neighbour match: the document id and its (opaque) similarity score. */
  datatype Match = Match(id: string, score: Value)

  /** An incoming request: its HTTP method and the parsed JSON body. */
  datatype Request = Request(httpMethod: string, body: Obj)

  datatype Response = Response(status: nat, body: Body)
  datatype Body = Text(text: string) | Records(items: seq<Option<Obj>>)

  // ---------------------------------------------------------------------------
  // Request guard

  /** The method check comes first, then `query` must not be `undefined`; any
      defined value, the empty string and `null` included, is the query. */
  function Guard(req: Request): (r: Result)
    ensures r.Reject? <==> req.httpMethod != "POST" || Get(req.body, "query") == None
    ensures req.httpMethod != "POST" ==> r == Reject("Invalid method")
    ensures req.httpMethod == "POST" && Get(req.body, "query") == None ==> r == Reject("No query provided")
    ensures r.Accept? ==> Some(r.query) == Get(req.body, "query")
  {
    if req.httpMethod != "POST" then Reject("Invalid method")
    else if Get(req.body, "query") == None then Reject("No query provided")
    else Accept(Get(req.body, "query").value)
  }

  datatype Result = Accept(query: Value) | Reject(reason: string)

  /** An empty-string query passes the guard, and so does `null`. */
  lemma GuardAcceptsEmptyAndNull(body: Obj)
    ensures Guard(Request("POST", body["query" := Some(Str("")) ])) == Accept(Str(""))
    ensures Guard(Request("POST", body["query" := Some(Null)])) == Accept(Null)
  {
  }

  // ---------------------------------------------------------------------------
  // Hydration

  function Collection(db: map<string, map<string, Obj>>, name: string): map<string, Obj>
  {
    if name in db then db[name] else map[]
  }

  /** The entry for one match: `null` when the document is missing, else its projection. */
  function HydrateOne(d: Domain, coll: map<string, Obj>, m: Match): Option<Obj>
  {
    if m.id in coll then Some(ProjectFor(d, coll[m.id], m.score)) else None
  }

  /** `Promise.all(matches.map(...))`: one entry per match, in match order. */
  function Hydrate(d: Domain, coll: map<string, Obj>, ms: seq<Match>): (r: seq<Option<Obj>>)
    ensures |r| == |ms|
    ensures forall i :: 0 <= i < |ms| ==> (r[i] == None <==> ms[i].id !in coll)
    ensures forall i :: 0 <= i < |ms| && ms[i].id in coll ==> r[i] == Some(ProjectFor(d, coll[ms[i].id], ms[i].score))
  {
    if ms == [] then [] else [HydrateOne(d, coll, ms[0])] + Hydrate(d, coll, ms[1..])
  }

  /** Hydration works match by match: the hydration of a concatenation is the
      concatenation of the hydrations, so no entry moves. */
  lemma {:induction false} HydrateAppend(d: Domain, coll: map<string, Obj>, a: seq<Match>, b: seq<Match>)
    ensures Hydrate(d, coll, a + b) == Hydrate(d, coll, a) + Hydrate(d, coll, b)
  {
    if a == [] {
      assert a + b == b;
    } else {
      assert (a + b)[1..] == a[1..] + b;
      HydrateAppend(d, coll, a[1..], b);
    }
  }

  function CountMissing(coll: map<string, Obj>, ms: seq<Match>): nat
  {
    if ms == [] then 0 else (if ms[0].id in coll then 0 else 1) + CountMissing(coll, ms[1..])
  }

  function CountNulls(xs: seq<Option<Obj>>): nat
  {
    if xs == [] then 0 else (if xs[0] == None then 1 else 0) + CountNulls(xs[1..])
  }

  /** The non-null entries, in order: what a result that dropped missing documents would hold. */
  function Present(xs: seq<Option<Obj>>): (r: seq<Obj>)
    ensures |r| == |xs| - CountNulls(xs)
  {
    if xs == [] then [] else (if xs[0] == None then [] else [xs[0].value]) + Present(xs[1..])
  }

  /** Missing documents are kept as `null` entries: there are exactly as many
      nulls as matches whose document is missing, and the response is as long
      as the matches, not shorter by the missing ones. */
  lemma {:induction false} HydrateKeepsNulls(d: Domain, coll: map<string, Obj>, ms: seq<Match>)
    ensures CountNulls(Hydrate(d, coll, ms)) == CountMissing(coll, ms)
    ensures |Present(Hydrate(d, coll, ms))| == |ms| - CountMissing(coll, ms)
  {
    if ms != [] {
      HydrateKeepsNulls(d, coll, ms[1..]);
      assert Hydrate(d, coll, ms)[1..] == Hydrate(d, coll, ms[1..]);
    }
  }

  // ---------------------------------------------------------------------------
  // The handler

  /** What the handler does with one request: it sends a response, or its
      promise rejects and nothing is sent. */
  datatype Reply = Sent(resp: Response) | Failed

  /** Whether a document read of one of the matches rejects, which makes
      `Promise.all` reject. */
  predicate ReadFails(ms: seq<Match>, unreadable: set<string>)
  {
    exists i :: 0 <= i < |ms| && ms[i].id in unreadable
  }

  /** One search request. `neighbours(namespace, model, query, topK)` stands for
      the embedding call, `data[0]` and the vector-index query; it is `None` when
      any of them throws. `unreadable` holds the ids whose document read rejects. */
  function SearchHandler(d: Domain, cfg: Config, req: Request, db: map<string, map<string, Obj>>,
                         unreadable: set<string>,
                         neighbours: (string, string, Value, nat) -> Option<seq<Match>>): (r: Reply)
    ensures Guard(req).Reject? ==> r == Sent(Response(400, Text(Guard(req).reason)))
    ensures Guard(req).Accept? ==>
              var found := neighbours(Namespace(d), cfg.model, Guard(req).query, cfg.topK);
              && (r.Failed? <==> found.None? || ReadFails(found.value, unreadable))
              && (r.Sent? ==> r.resp == Response(200, Records(Hydrate(d, Collection(db, Namespace(d)), found.value))))
  {
    match Guard(req)
    case Reject(reason) => Sent(Response(400, Text(reason)))
    case Accept(q) =>
      match neighbours(Namespace(d), cfg.model, q, cfg.topK)
      case None => Failed
      case Some(ms) =>
        if ReadFails(ms, unreadable) then Failed
        else Sent(Response(200, Records(Hydrate(d, Collection(db, Namespace(d)), ms))))
  }

  /** A response with status 400 is sent exactly when the guard rejects; every
      other response sent has status 200. */
  lemma BadRequestIffRejected(d: Domain, cfg: Config, req: Request, db: map<string, map<string, Obj>>,
                              unreadable: set<string>,
                              neighbours: (string, string, Value, nat) -> Option<seq<Match>>)
    ensures var r := SearchHandler(d, cfg, req, db, unreadable, neighbours);
      && (r.Sent? && r.resp.status == 400 <==> Guard(req).Reject?)
      && (r.Sent? && r.resp.status != 400 ==> r.resp.status == 200 && r.resp.body.Records?)
  {
  }

  /** A rejected request never reaches the embedding call, the index or the
      store: its response is the same whatever they would have answered. */
  lemma RejectionPrecedesSearch(d: Domain, cfg: Config, req: Request,
                                db1: map<string, map<string, Obj>>, db2: map<string, map<string, Obj>>,
                                u1: set<string>, u2: set<string>,
                                f: (string, string, Value, nat) -> Option<seq<Match>>,
                                g: (string, string, Value, nat) -> Option<seq<Match>>)
    requires Guard(req).Reject?
    ensures SearchHandler(d, cfg, req, db1, u1, f) == SearchHandler(d, cfg, req, db2, u2, g)
  {
  }

  /** When the index honours `topK`, a response never holds more than `topK` entries. */
  lemma ResponseWithinTopK(d: Domain, cfg: Config, req: Request, db: map<string, map<string, Obj>>,
                           unreadable: set<string>,
                           neighbours: (string, string, Value, nat) -> Option<seq<Match>>)
    requires Guard(req).Accept? ==>
               var found := neighbours(Namespace(d), cfg.model, Guard(req).query, cfg.topK);
               found.Some? ==> |found.value| <= cfg.topK
    ensures var r := SearchHandler(d, cfg, req, db, unreadable, neighbours);
      r.Sent? && r.resp.body.Records? ==> |r.resp.body.items| <= cfg.topK
  {
  }

  /** Under the default parameters a response lists at most three entries. */
  lemma DefaultsListAtMostThree(d: Domain, req: Request, db: map<string, map<string, Obj>>,
                                unreadable: set<string>,
                                neighbours: (string, string, Value, nat) -> Option<seq<Match>>)
    requires Guard(req).Accept? ==>
               var found := neighbours(Namespace(d), DefaultConfig.model, Guard(req).query, DefaultConfig.topK);
               found.Some? ==> |found.value| <= DefaultConfig.topK
    ensures var r := SearchHandler(d, DefaultConfig, req, db, unreadable, neighbours);
      r.Sent? && r.resp.body.Records? ==> |r.resp.body.items| <= 3
  {
    ResponseWithinTopK(d, DefaultConfig, req, db, unreadable, neighbours);
  }
}
