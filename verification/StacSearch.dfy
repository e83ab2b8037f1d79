/** Following the pages of a STAC API search against a server that may answer anything. */
module StacSearch {
  import opened Wrappers

  datatype Json =
    | Null
    | Bool(b: bool)
    | Num(n: real)
    | Str(s: string)
    | Arr(items: seq<Json>)
    | Obj(fields: map<string, Json>)

  /** The rel=next link of a page. */
  datatype Next = Next(href: string, verb: string, body: Option<Json>, merge: bool)

  datatype Page<R> = Page(rows: seq<R>, next: Option<Next>)

  datatype Request = Request(href: string, verb: string, body: Option<Json>)

  /** What goes over the wire: only a POST carries a body. */
  datatype Wire = Post(href: string, body: Json) | Get(href: string)

  datatype Reply<R> = Got(page: Page<R>) | Refused

  /** A server: its reply may depend on the request and on how many came before. */
  type Server<!R> = (nat, Wire) -> Reply<R>

  datatype SearchError = RequestFailed | CapExceeded

  // ---- requests -----------------------------------------------------------------------------

  /** POST /search body: only the filters that are set. */
  function BuildSearchBody(collections: Option<seq<string>>, bbox: Option<(real, real, real, real)>,
                           datetime: Option<string>, limit: Option<nat>): Json {
    var c: map<string, Json> := if collections.Some? then map["collections" := Strings(collections.value)] else map[];
    var b: map<string, Json> := if bbox.Some? then map["bbox" := Corners(bbox.value)] else map[];
    var d: map<string, Json> := if datetime.Some? then map["datetime" := Str(datetime.value)] else map[];
    var l: map<string, Json> := if limit.Some? then map["limit" := Num(limit.value as real)] else map[];
    Obj(c + b + d + l)
  }

  function Corners(b: (real, real, real, real)): Json {
    Arr([Num(b.0), Num(b.1), Num(b.2), Num(b.3)])
  }

  function Strings(s: seq<string>): Json {
    Arr(seq(|s|, i requires 0 <= i < |s| => Str(s[i])))
  }

  function Fields(j: Json): map<string, Json> {
    if j.Obj? then j.fields else map[]
  }

  /** The request a next link asks for. */
  function Follow(original: Json, next: Next): Request {
    Request(next.href, next.verb,
            if next.body.None? then None
            else if next.merge then Some(Obj(Fields(original) + Fields(next.body.value)))
            else next.body)
  }

  /** apply_next: the loop that lays the next body's fields over a copy of the original's. */
  method ApplyNext(original: Json, next: Next) returns (r: Request)
    ensures r == Follow(original, next)
  {
    if next.body.None? || !next.merge {
      return Request(next.href, next.verb, next.body);
    }
    var merged := Fields(original);
    var over := Fields(next.body.value);
    var rest := over.Keys;
    while rest != {}
      invariant rest <= over.Keys
      invariant merged.Keys == Fields(original).Keys + (over.Keys - rest)
      invariant forall k :: k in merged ==>
                  merged[k] == if k in over && k !in rest then over[k] else Fields(original)[k]
      decreases |rest|
    {
      var k :| k in rest;
      merged := merged[k := over[k]];
      rest := rest - {k};
    }
    assert merged == Fields(original) + over;
    r := Request(next.href, next.verb, Some(Obj(merged)));
  }

  function Lower(c: char): char {
    if 'A' <= c <= 'Z' then c - 'A' + 'a' else c
  }

  predicate SameIgnoringCase(a: string, b: string) {
    |a| == |b| && forall i :: 0 <= i < |a| ==> Lower(a[i]) == Lower(b[i])
  }

  function Sent(q: Request): Wire {
    if SameIgnoringCase(q.verb, "POST") then Post(q.href, if q.body.Some? then q.body.value else Obj(map[]))
    else Get(q.href)
  }

  // ---- the crawl ----------------------------------------------------------------------------

  datatype Exchange<R> = Exchange(request: Request, reply: Reply<R>)

  function First(url: string, original: Json): Request {
    Request(url, "POST", Some(original))
  }

  /** A reply that ends the crawl: a failure, the cap reached, no next link, or an empty page. */
  predicate Stops<R>(reply: Reply<R>, sofar: nat, maxRows: nat) {
    reply.Refused? || sofar + |reply.page.rows| >= maxRows || reply.page.next.None? || reply.page.rows == []
  }

  /** Every exchange from the n-th on, `sofar` rows being in hand. */
  function Crawl<R>(server: Server<R>, original: Json, q: Request, n: nat, sofar: nat,
                    maxRows: nat): (log: seq<Exchange<R>>)
    ensures log != []
    decreases if sofar < maxRows then maxRows - sofar else 0
  {
    var reply := server(n, Sent(q));
    if Stops(reply, sofar, maxRows) then [Exchange(q, reply)]
    else
      [Exchange(q, reply)] +
      Crawl(server, original, Follow(original, reply.page.next.value), n + 1, sofar + |reply.page.rows|, maxRows)
  }

  function RowsOf<R>(reply: Reply<R>): seq<R> {
    if reply.Got? then reply.page.rows else []
  }

  /** The rows of the first n replies, in order. */
  function RowsTo<R>(log: seq<Exchange<R>>, n: nat): seq<R>
    requires n <= |log|
  {
    if n == 0 then [] else RowsTo(log, n - 1) + RowsOf(log[n - 1].reply)
  }

  /** All rows of the pages fetched, in order. */
  function AllRows<R>(log: seq<Exchange<R>>): seq<R> {
    RowsTo(log, |log|)
  }

  function Last<R>(log: seq<Exchange<R>>): Reply<R>
    requires log != []
  {
    log[|log| - 1].reply
  }

  /** What the search must return. */
  function Outcome<R>(log: seq<Exchange<R>>, explicit: bool, maxRows: nat): Result<seq<R>, SearchError>
    requires log != []
  {
    var rows := AllRows(log);
    if Last(log).Refused? then Err(RequestFailed)
    else if |rows| < maxRows then Ok(rows)
    else if !explicit && (|rows| > maxRows || Last(log).page.next.Some?) then Err(CapExceeded)
    else Ok(rows[..maxRows])
  }

  /** What is left of a log is one exchange, or one and what follows from it. */
  lemma CrawlOn<R>(server: Server<R>, original: Json, q: Request, n: nat, sofar: nat, maxRows: nat,
                   rest: seq<Exchange<R>>, reply: Reply<R>)
    requires rest == Crawl(server, original, q, n, sofar, maxRows) && reply == server(n, Sent(q))
    ensures rest != [] && rest[0] == Exchange(q, reply)
    ensures Stops(reply, sofar, maxRows) ==> |rest| == 1
    ensures !Stops(reply, sofar, maxRows) ==>
              rest[1..] == Crawl(server, original, Follow(original, reply.page.next.value), n + 1,
                                 sofar + |reply.page.rows|, maxRows)
  {
  }

  lemma CrawlAt<R>(server: Server<R>, original: Json, q: Request, n: nat, sofar: nat, maxRows: nat,
                   log: seq<Exchange<R>>, reply: Reply<R>)
    requires n < |log| && log[n..] == Crawl(server, original, q, n, sofar, maxRows) && reply == server(n, Sent(q))
    ensures log[n] == Exchange(q, reply) && RowsTo(log, n + 1) == RowsTo(log, n) + RowsOf(reply)
    ensures Stops(reply, sofar, maxRows) ==> |log| == n + 1
    ensures !Stops(reply, sofar, maxRows) ==>
              n + 1 < |log| && log[n + 1..] == Crawl(server, original, Follow(original, reply.page.next.value), n + 1,
                                                     sofar + |reply.page.rows|, maxRows)
  {
    CrawlOn(server, original, q, n, sofar, maxRows, log[n..], reply);
    assert log[n] == log[n..][0] && log[n..][1..] == log[n + 1..];
  }

  /** The loop of bind, from its first request. */
  method SearchFrom<R>(server: Server<R>, original: Json, first: Request, explicit: bool, maxRows: nat,
                       ghost log: seq<Exchange<R>>) returns (r: Result<seq<R>, SearchError>)
    requires maxRows > 0 && log == Crawl(server, original, first, 0, 0, maxRows)
    ensures log != [] && r == Outcome(log, explicit, maxRows)
  {
    var rows: seq<R> := [];
    var q := first;
    var n := 0;
    while true
      invariant n < |log| && |rows| < maxRows && rows == RowsTo(log, n)
      invariant log[n..] == Crawl(server, original, q, n, |rows|, maxRows)
      decreases maxRows - |rows|
    {
      var reply := server(n, Sent(q));
      CrawlAt(server, original, q, n, |rows|, maxRows, log, reply);
      if reply.Refused? {
        return Err(RequestFailed);
      }
      rows := rows + reply.page.rows;
      if |rows| >= maxRows {
        var truncated := |rows| > maxRows || reply.page.next.Some?;
        if truncated && !explicit {
          return Err(CapExceeded);
        }
        return Ok(rows[..maxRows]);
      }
      if reply.page.next.None? {
        return Ok(rows);
      }
      if |reply.page.rows| == 0 {
        return Ok(rows);
      }
      q := ApplyNext(original, reply.page.next.value);
      n := n + 1;
    }
  }

  /** On the wire a search starts with a POST of the original body. */
  lemma StartsWithPost<R>(server: Server<R>, url: string, original: Json, maxRows: nat)
    ensures Crawl(server, original, First(url, original), 0, 0, maxRows)[0].reply == server(0, Post(url, original))
  {
    assert SameIgnoringCase("POST", "POST");
  }

  method Search<R>(server: Server<R>, url: string, original: Json, explicit: bool, maxRows: nat)
      returns (r: Result<seq<R>, SearchError>)
    requires maxRows > 0
    ensures r == Outcome(Crawl(server, original, First(url, original), 0, 0, maxRows), explicit, maxRows)
    ensures Crawl(server, original, First(url, original), 0, 0, maxRows)[0].reply == server(0, Post(url, original))
  {
    StartsWithPost(server, url, original, maxRows);
    ghost var log := Crawl(server, original, First(url, original), 0, 0, maxRows);
    r := SearchFrom(server, original, First(url, original), explicit, maxRows, log);
  }

  lemma {:induction false} RowsAfterFirst<R>(log: seq<Exchange<R>>, rest: seq<Exchange<R>>, n: nat)
    requires log != [] && rest == log[1..] && n <= |rest|
    ensures RowsTo(log, n + 1) == RowsOf(log[0].reply) + RowsTo(rest, n)
  {
    var first := RowsOf(log[0].reply);
    if n == 0 {
      assert RowsTo(log, 1) == RowsTo(log, 0) + first == first;
    } else {
      RowsAfterFirst(log, rest, n - 1);
      var before, last := RowsTo(rest, n - 1), RowsOf(rest[n - 1].reply);
      assert log[n] == rest[n - 1];
      assert (first + before) + last == first + (before + last);
    }
  }

  // ---- what holds of every crawl ------------------------------------------------------------

  /** Any server is asked at most maxRows times: every page that is followed adds a row. */
  lemma {:induction false} AtMostMaxRowsRequests<R>(server: Server<R>, original: Json, q: Request, n: nat, sofar: nat,
                                                    maxRows: nat)
    requires sofar < maxRows
    ensures |Crawl(server, original, q, n, sofar, maxRows)| <= maxRows - sofar
    decreases maxRows - sofar
  {
    var reply := server(n, Sent(q));
    if !Stops(reply, sofar, maxRows) {
      var next := Follow(original, reply.page.next.value);
      AtMostMaxRowsRequests(server, original, next, n + 1, sofar + |reply.page.rows|, maxRows);
    }
  }

  /** Exchange k of a crawl: the server's own reply to what was sent; the next request follows from this page's link and
      the original body, never from a body merged before. */
  lemma {:induction false} EachRequestFollows<R>(server: Server<R>, original: Json, q: Request, n: nat, sofar: nat,
                                                 maxRows: nat, k: nat)
    requires k < |Crawl(server, original, q, n, sofar, maxRows)|
    ensures var log := Crawl(server, original, q, n, sofar, maxRows);
            && log[0].request == q
            && log[k].reply == server(n + k, Sent(log[k].request))
            && (k + 1 < |log| ==>
                  && log[k].reply.Got? && log[k].reply.page.next.Some? && log[k].reply.page.rows != []
                  && log[k + 1].request == Follow(original, log[k].reply.page.next.value))
    decreases k
  {
    var reply := server(n, Sent(q));
    if k > 0 {
      var next := Follow(original, reply.page.next.value);
      EachRequestFollows(server, original, next, n + 1, sofar + |reply.page.rows|, maxRows, k - 1);
    }
  }

  /** A merged body has the next body's fields where it has them, the original's elsewhere, and no others; a body that
      is not an object has none. */
  lemma MergedBodyIsOverOriginal(original: Json, next: Next, k: string)
    requires next.merge && next.body.Some?
    ensures var body, over := Follow(original, next).body, next.body.value;
            && body.Some? && body.value.Obj?
            && (k in body.value.fields <==> (original.Obj? && k in original.fields) || (over.Obj? && k in over.fields))
            && (k in body.value.fields ==>
                  body.value.fields[k] == if over.Obj? && k in over.fields then over.fields[k] else original.fields[k])
  {
  }

  /** The word POST in any letter case. */
  predicate SaysPost(verb: string) {
    |verb| == 4 && verb[0] in "Pp" && verb[1] in "Oo" && verb[2] in "Ss" && verb[3] in "Tt"
  }

  lemma PostInAnyCase(verb: string)
    ensures SameIgnoringCase(verb, "POST") <==> SaysPost(verb)
  {
    if |verb| == 4 {
      assert SameIgnoringCase(verb, "POST") <==>
               Lower(verb[0]) == 'p' && Lower(verb[1]) == 'o' && Lower(verb[2]) == 's' && Lower(verb[3]) == 't';
    }
  }

  /** What a link puts on the wire: its own address; its body if it says POST, by itself or merged over the original, or
      an empty one if it has none; no body otherwise. */
  lemma LinkOnTheWire(original: Json, next: Next)
    ensures var wire := Sent(Follow(original, next));
            && wire.href == next.href
            && (wire.Post? <==> SaysPost(next.verb))
            && (wire.Post? && next.body.None? ==> wire.body == Obj(map[]))
            && (wire.Post? && next.body.Some? && !next.merge ==> wire.body == next.body.value)
            && (wire.Post? && next.body.Some? && next.merge ==> Some(wire.body) == Follow(original, next).body)
  {
    PostInAnyCase(next.verb);
  }

  /** How many rows the first n replies brought. */
  function RowCount<R>(log: seq<Exchange<R>>, n: nat): nat
    requires n <= |log|
  {
    if n == 0 then 0
    else RowCount(log, n - 1) + match log[n - 1].reply case Got(page) => |page.rows| case Refused => 0
  }

  /** Row j of page k comes after all rows of the pages before it, and there are no other rows. */
  lemma {:induction false} RowsInOrder<R>(log: seq<Exchange<R>>, n: nat, k: nat, j: nat)
    requires k < n <= |log| && log[k].reply.Got? && j < |log[k].reply.page.rows|
    ensures |RowsTo(log, n)| == RowCount(log, n) && RowCount(log, k) + j < RowCount(log, n)
    ensures RowsTo(log, n)[RowCount(log, k) + j] == log[k].reply.page.rows[j]
  {
    RowsCounted(log, n);
    RowsCounted(log, n - 1);
    if k < n - 1 {
      RowsInOrder(log, n - 1, k, j);
    }
  }

  lemma {:induction false} RowsCounted<R>(log: seq<Exchange<R>>, n: nat)
    requires n <= |log|
    ensures |RowsTo(log, n)| == RowCount(log, n)
  {
    if n > 0 {
      RowsCounted(log, n - 1);
    }
  }

  /** Why a crawl ended. */
  lemma {:induction false} EndsForAReason<R>(server: Server<R>, original: Json, q: Request, n: nat, sofar: nat,
                                             maxRows: nat)
    requires sofar < maxRows
    ensures var log := Crawl(server, original, q, n, sofar, maxRows);
            || Last(log).Refused? || sofar + |AllRows(log)| >= maxRows
            || Last(log).page.next.None? || Last(log).page.rows == []
    decreases maxRows - sofar
  {
    var reply := server(n, Sent(q));
    var log := Crawl(server, original, q, n, sofar, maxRows);
    if Stops(reply, sofar, maxRows) {
      assert RowsTo(log, 1) == RowsTo(log, 0) + RowsOf(reply);
    } else {
      var next := Follow(original, reply.page.next.value);
      EndsForAReason(server, original, next, n + 1, sofar + |reply.page.rows|, maxRows);
      var rest := Crawl(server, original, next, n + 1, sofar + |reply.page.rows|, maxRows);
      RowsAfterFirst(log, rest, |rest|);
    }
  }

  /** Without an explicit cap no fetched row is cut: Ok is the rows of all pages fetched, at most maxRows of them, and
      the last page had no next link or no rows. With one, Ok is their first maxRows. */
  lemma NoFetchedRowIsCut<R>(server: Server<R>, url: string, original: Json, explicit: bool, maxRows: nat)
    requires maxRows > 0
    ensures var log := Crawl(server, original, First(url, original), 0, 0, maxRows);
            var r := Outcome(log, explicit, maxRows);
            && (r.Ok? && !explicit ==>
                  && r.value == AllRows(log) && |r.value| <= maxRows
                  && Last(log).Got? && (Last(log).page.next.None? || Last(log).page.rows == []))
            && (r.Ok? && explicit ==>
                  r.value == AllRows(log)[..if |AllRows(log)| <= maxRows then |AllRows(log)| else maxRows])
            && (r == Err(RequestFailed) <==> Last(log).Refused?)
            && (r == Err(CapExceeded) <==>
                  Last(log).Got? && !explicit &&
                  (|AllRows(log)| > maxRows || (|AllRows(log)| == maxRows && Last(log).page.next.Some?)))
  {
    EndsForAReason(server, original, First(url, original), 0, 0, maxRows);
  }

  // ---- what the server still has ------------------------------------------------------------

  /** The first k exchanges when every next link is followed, through empty pages and without a cap. */
  function Chain<R>(server: Server<R>, original: Json, q: Request, n: nat, k: nat): seq<Exchange<R>>
    decreases k
  {
    if k == 0 then []
    else
      var reply := server(n, Sent(q));
      if reply.Refused? || reply.page.next.None? then [Exchange(q, reply)]
      else [Exchange(q, reply)] + Chain(server, original, Follow(original, reply.page.next.value), n + 1, k - 1)
  }

  /** A crawl is the chain up to where it stops. */
  lemma {:induction false} CrawlIsChainPrefix<R>(server: Server<R>, original: Json, q: Request, n: nat, sofar: nat,
                                                 maxRows: nat, k: nat, log: seq<Exchange<R>>, chain: seq<Exchange<R>>)
    requires log == Crawl(server, original, q, n, sofar, maxRows) && chain == Chain(server, original, q, n, k)
    ensures k <= |log| ==> chain == log[..k]
    ensures k >= |log| ==> |log| <= |chain| && chain[..|log|] == log
    decreases k
  {
    var reply := server(n, Sent(q));
    CrawlOn(server, original, q, n, sofar, maxRows, log, reply);
    if k > 0 && !Stops(reply, sofar, maxRows) {
      var next := Follow(original, reply.page.next.value);
      var rest := Chain(server, original, next, n + 1, k - 1);
      CrawlIsChainPrefix(server, original, next, n + 1, sofar + |reply.page.rows|, maxRows, k - 1, log[1..], rest);
      assert log == [log[0]] + log[1..] && chain == [log[0]] + rest;
    }
  }

  /** Only a page with a next link is followed. */
  lemma {:induction false} ChainGoesOn<R>(server: Server<R>, original: Json, q: Request, n: nat, k: nat, j: nat)
    requires j + 1 < |Chain(server, original, q, n, k)|
    ensures var reply := Chain(server, original, q, n, k)[j].reply; reply.Got? && reply.page.next.Some?
    decreases j
  {
    var reply := server(n, Sent(q));
    if j > 0 {
      ChainGoesOn(server, original, Follow(original, reply.page.next.value), n + 1, k - 1, j - 1);
    }
  }

  lemma {:induction false} RowsToSame<R>(a: seq<Exchange<R>>, b: seq<Exchange<R>>, n: nat)
    requires n <= |a| && n <= |b| && a[..n] == b[..n]
    ensures RowsTo(a, n) == RowsTo(b, n)
  {
    if n > 0 {
      assert a[..n - 1] == a[..n][..n - 1] == b[..n - 1];
      assert a[n - 1] == a[..n][n - 1] == b[n - 1];
      RowsToSame(a, b, n - 1);
    }
  }

  lemma {:induction false} RowsToGrows<R>(log: seq<Exchange<R>>, n: nat, p: nat)
    requires n <= p <= |log|
    ensures RowsTo(log, n) <= RowsTo(log, p)
  {
    if n < p {
      RowsToGrows(log, n, p - 1);
    }
  }

  lemma {:induction false} RowlessFrom<R>(log: seq<Exchange<R>>, n: nat, p: nat)
    requires n <= p <= |log| && forall j :: n <= j < p ==> RowsOf(log[j].reply) == []
    ensures RowsTo(log, p) == RowsTo(log, n)
  {
    if n < p {
      RowlessFrom(log, n, p - 1);
    }
  }

  /** All rows to be had by following the links are in `rows`. */
  ghost predicate Complete<R>(server: Server<R>, original: Json, q: Request, rows: seq<R>) {
    forall k: nat :: AllRows(Chain(server, original, q, 0, k)) <= rows
  }

  /** No page after an empty one has rows. */
  ghost predicate NoGap<R>(server: Server<R>, original: Json, q: Request) {
    forall k: nat :: Gapless(Chain(server, original, q, 0, k))
  }

  ghost predicate Gapless<R>(log: seq<Exchange<R>>) {
    forall i, j :: 0 <= i < j < |log| && log[i].reply.Got? && log[i].reply.page.rows == [] ==>
      RowsOf(log[j].reply) == []
  }

  /** The server has no more rows than the cap. */
  ghost predicate FitsCap<R>(server: Server<R>, original: Json, q: Request, maxRows: nat) {
    forall k: nat :: |AllRows(Chain(server, original, q, 0, k))| <= maxRows
  }

  /** Without a gap, and within an explicit cap, nothing follows the crawl but pages without rows. */
  lemma NothingFollows<R>(server: Server<R>, original: Json, q: Request, explicit: bool, maxRows: nat,
                          log: seq<Exchange<R>>, k: nat, chain: seq<Exchange<R>>)
    requires maxRows > 0 && log == Crawl(server, original, q, 0, 0, maxRows) && Outcome(log, explicit, maxRows).Ok?
    requires k >= |log| && chain == Chain(server, original, q, 0, k)
    requires Gapless(chain) && (explicit ==> |AllRows(chain)| <= maxRows)
    ensures AllRows(chain) == AllRows(log)
  {
    var m := |log|;
    CrawlIsChainPrefix(server, original, q, 0, 0, maxRows, k, log, chain);
    RowsToSame(chain, log, m);
    RowsToGrows(chain, m, |chain|);
    EndsForAReason(server, original, q, 0, 0, maxRows);
    assert chain[m - 1] == log[m - 1];
    if m < |chain| {
      ChainGoesOn(server, original, q, 0, k, m - 1);
      if Last(log).page.rows == [] {
        RowlessFrom(chain, m, |chain|);
      }
    }
  }

  /** The crawl goes on past no empty page. */
  lemma LastOfCrawl<R>(server: Server<R>, original: Json, q: Request, maxRows: nat, log: seq<Exchange<R>>,
                       chain: seq<Exchange<R>>, i: nat)
    requires log == Crawl(server, original, q, 0, 0, maxRows)
    requires i < |chain| && chain[i].reply.Got? && chain[i].reply.page.rows == []
    requires |chain| <= |log| ==> chain == log[..|chain|]
    requires |chain| >= |log| ==> chain[..|log|] == log
    ensures |log| <= i + 1
  {
    if i < |log| {
      assert chain[i] == log[i];
      EachRequestFollows(server, original, q, 0, 0, maxRows, i);
    }
  }

  /** A page with rows that follows an empty one is beyond the crawl. */
  lemma GapIsBeyond<R>(server: Server<R>, original: Json, q: Request, maxRows: nat, log: seq<Exchange<R>>, k: nat,
                       chain: seq<Exchange<R>>, i: nat, j: nat)
    requires log == Crawl(server, original, q, 0, 0, maxRows) && chain == Chain(server, original, q, 0, k)
    requires i < j < |chain| && chain[i].reply.Got? && chain[i].reply.page.rows == [] && RowsOf(chain[j].reply) != []
    ensures |AllRows(chain)| > |AllRows(log)|
  {
    CrawlIsChainPrefix(server, original, q, 0, 0, maxRows, k, log, chain);
    LastOfCrawl(server, original, q, maxRows, log, chain, i);
    MoreRows(chain, log, j);
  }

  lemma MoreRows<R>(chain: seq<Exchange<R>>, log: seq<Exchange<R>>, j: nat)
    requires |log| <= j < |chain| && chain[..|log|] == log && RowsOf(chain[j].reply) != []
    ensures |AllRows(chain)| > |AllRows(log)|
  {
    RowsToSame(chain, log, |log|);
    RowsToGrows(chain, |log|, j);
    RowsToGrows(chain, j + 1, |chain|);
  }

  lemma PartOfCrawl<R>(server: Server<R>, original: Json, q: Request, maxRows: nat, log: seq<Exchange<R>>, k: nat,
                       chain: seq<Exchange<R>>)
    requires log == Crawl(server, original, q, 0, 0, maxRows) && chain == Chain(server, original, q, 0, k) && k <= |log|
    ensures AllRows(chain) <= AllRows(log)
  {
    CrawlIsChainPrefix(server, original, q, 0, 0, maxRows, k, log, chain);
    RowsToSame(chain, log, k);
    RowsToGrows(log, k, |log|);
  }

  /** Exactly when an Ok search has all the server's rows: no page with rows comes after an empty one, and under an
      explicit cap there are no more rows than the cap. Both speak of the server alone. */
  lemma CompleteIff<R>(server: Server<R>, url: string, original: Json, explicit: bool, maxRows: nat, q: Request,
                       log: seq<Exchange<R>>)
    requires maxRows > 0 && q == First(url, original) && log == Crawl(server, original, q, 0, 0, maxRows)
    requires Outcome(log, explicit, maxRows).Ok?
    ensures Complete(server, original, q, Outcome(log, explicit, maxRows).value) <==>
              NoGap(server, original, q) && (explicit ==> FitsCap(server, original, q, maxRows))
  {
    var rows := Outcome(log, explicit, maxRows).value;
    NoFetchedRowIsCut(server, url, original, explicit, maxRows);
    if Complete(server, original, q, rows) {
      forall k: nat ensures Gapless(Chain(server, original, q, 0, k)) {
        var chain := Chain(server, original, q, 0, k);
        assert AllRows(chain) <= rows;
        forall i: nat, j: nat | i < j < |chain| && chain[i].reply.Got? && chain[i].reply.page.rows == []
          ensures RowsOf(chain[j].reply) == []
        {
          if RowsOf(chain[j].reply) != [] {
            GapIsBeyond(server, original, q, maxRows, log, k, chain, i, j);
          }
        }
      }
    }
    if NoGap(server, original, q) && (explicit ==> FitsCap(server, original, q, maxRows)) {
      forall k: nat ensures AllRows(Chain(server, original, q, 0, k)) <= rows {
        CoveredByCrawl(server, original, q, explicit, maxRows, log, k, rows);
      }
    }
  }

  lemma CoveredByCrawl<R>(server: Server<R>, original: Json, q: Request, explicit: bool, maxRows: nat,
                          log: seq<Exchange<R>>, k: nat, rows: seq<R>)
    requires maxRows > 0 && log == Crawl(server, original, q, 0, 0, maxRows)
    requires Outcome(log, explicit, maxRows) == Ok(rows)
    requires NoGap(server, original, q) && (explicit ==> FitsCap(server, original, q, maxRows))
    ensures AllRows(Chain(server, original, q, 0, k)) <= rows
  {
    var whole, chain := Chain(server, original, q, 0, |log|), Chain(server, original, q, 0, k);
    CrawlIsChainPrefix(server, original, q, 0, 0, maxRows, |log|, log, whole);
    assert log[..|log|] == log;
    assert AllRows(whole) == AllRows(log);
    assert explicit ==> |AllRows(whole)| <= maxRows;
    if k <= |log| {
      PartOfCrawl(server, original, q, maxRows, log, k, chain);
    } else {
      assert Gapless(chain);
      NothingFollows(server, original, q, explicit, maxRows, log, k, chain);
    }
  }

  /** It can fail: a first page without rows ends the search although it links to a page that has one. */
  lemma EmptyPageHidesTheNext<R>(server: Server<R>, url: string, original: Json, explicit: bool, maxRows: nat,
                                 link: Next, row: R)
    requires maxRows > 0
    requires server(0, Sent(First(url, original))) == Got(Page([], Some(link)))
    requires server(1, Sent(Follow(original, link))) == Got(Page([row], None))
    ensures Outcome(Crawl(server, original, First(url, original), 0, 0, maxRows), explicit, maxRows) == Ok([])
    ensures AllRows(Chain(server, original, First(url, original), 0, 2)) == [row]
  {
    var q, next := First(url, original), Follow(original, link);
    var log := Crawl(server, original, q, 0, 0, maxRows);
    var empty, full := Exchange(q, server(0, Sent(q))), Exchange(next, server(1, Sent(next)));
    CrawlOn(server, original, q, 0, 0, maxRows, log, empty.reply);
    assert RowsTo(log, 1) == RowsTo(log, 0) + [];
    assert Chain(server, original, next, 1, 1) == [full];
    assert Chain(server, original, q, 0, 2) == [empty, full];
    assert RowsTo([empty, full], 1) == RowsTo([empty, full], 0) + [];
    assert RowsTo([empty, full], 2) == RowsTo([empty, full], 1) + [row];
  }

  /** A filter that is set is in the body with its value, and nothing else is in the body. */
  lemma SetFiltersOnly(collections: Option<seq<string>>, bbox: Option<(real, real, real, real)>,
                       datetime: Option<string>, limit: Option<nat>, body: map<string, Json>)
    requires BuildSearchBody(collections, bbox, datetime, limit) == Obj(body)
    ensures "collections" in body <==> collections.Some?
    ensures "bbox" in body <==> bbox.Some?
    ensures "datetime" in body <==> datetime.Some?
    ensures "limit" in body <==> limit.Some?
    ensures body.Keys <= {"collections", "bbox", "datetime", "limit"}
    ensures collections.Some? ==> HoldsStrings(body["collections"], collections.value)
    ensures bbox.Some? ==>
              body["bbox"] == Arr([Num(bbox.value.0), Num(bbox.value.1), Num(bbox.value.2), Num(bbox.value.3)])
    ensures datetime.Some? ==> body["datetime"] == Str(datetime.value)
    ensures limit.Some? ==> body["limit"] == Num(limit.value as real)
  {
  }

  predicate HoldsStrings(j: Json, s: seq<string>) {
    j.Arr? && |j.items| == |s| && forall i :: 0 <= i < |s| ==> j.items[i] == Str(s[i])
  }
}
