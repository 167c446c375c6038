/**
 * One source across ingest passes (src/ingest/fetch.py, src/ingest/store.py,
 * src/ingest/__main__.py): what is asked, what is stored, and what a 304 may be taken to mean.
 */
module Ingest {
  import opened Wrappers
  import opened Typography
  import opened Analyze
  import opened Corpus
  import opened Positions

  // ---------------------------------------------------------------------------
  // Reading a body
  // ---------------------------------------------------------------------------

  /** One entry of a feed or card of a listing; `url` is canonical, and empty when there is no link. */
  datatype RawEntry = RawEntry(title: Text, url: string, lead: Option<Text>)

  type Body = seq<RawEntry>

  predicate Usable(raw: RawEntry) {
    raw.title != [] && raw.url != []
  }

  function Fetched(raw: RawEntry): NewArticle {
    NewArticle(raw.url, ArticleText(raw.title, raw.lead))
  }

  /** The first usable entry of each address, in order. */
  function Parsed(body: Body): seq<NewArticle> {
    if body == [] then []
    else
      var n := |body| - 1;
      var earlier := Parsed(body[..n]);
      if Usable(body[n]) && body[n].url !in Addresses(earlier) then earlier + [Fetched(body[n])] else earlier
  }

  function Addresses(articles: seq<NewArticle>): set<string> {
    set a | a in articles :: a.urlHash
  }

  method ParseBody(body: Body) returns (articles: seq<NewArticle>)
    ensures articles == Parsed(body)
  {
    var seen: set<string> := {};
    articles := [];
    for i := 0 to |body|
      invariant articles == Parsed(body[..i])
      invariant seen == Addresses(articles)
    {
      assert body[..i + 1][..i] == body[..i];
      var raw := body[i];
      if raw.title == [] || raw.url == [] {
        continue;
      }
      if raw.url in seen {
        continue;
      }
      seen := seen + {raw.url};
      articles := articles + [Fetched(raw)];
    }
    assert body[..|body|] == body;
  }

  /** No earlier usable entry has the same address. */
  predicate FirstOf(body: Body, k: nat)
    requires k < |body|
  {
    Usable(body[k]) && forall j :: 0 <= j < k && Usable(body[j]) ==> body[j].url != body[k].url
  }

  /** The addresses kept are exactly those of the usable entries. */
  lemma {:induction false} ParsedAddresses(body: Body, url: string)
    ensures url in Addresses(Parsed(body)) <==>
            exists k :: 0 <= k < |body| && Usable(body[k]) && body[k].url == url
  {
    if body != [] {
      var n := |body| - 1;
      ParsedAddresses(body[..n], url);
      if url in Addresses(Parsed(body[..n])) {
        var k :| 0 <= k < n && Usable(body[..n][k]) && body[..n][k].url == url;
        assert Usable(body[k]) && body[k].url == url;
      }
      if exists k :: 0 <= k < |body| && Usable(body[k]) && body[k].url == url {
        var k :| 0 <= k < |body| && Usable(body[k]) && body[k].url == url;
        assert k < n ==> body[..n][k] == body[k];
      }
    }
  }

  /** No address is kept twice. */
  lemma {:induction false} ParsedIsDeduplicated(body: Body)
    ensures forall i, j :: 0 <= i < j < |Parsed(body)| ==> Parsed(body)[i].urlHash != Parsed(body)[j].urlHash
  {
    if body != [] {
      var n := |body| - 1;
      ParsedIsDeduplicated(body[..n]);
      var earlier := Parsed(body[..n]);
      forall i | 0 <= i < |earlier|
        ensures earlier[i].urlHash in Addresses(earlier)
      {
        assert earlier[i] in earlier;
      }
    }
  }

  /** Of several entries with one address the first is the one kept. */
  lemma {:induction false} ParsedKeepsFirst(body: Body, a: NewArticle) returns (k: nat)
    requires a in Parsed(body)
    ensures k < |body| && FirstOf(body, k) && a == Fetched(body[k])
  {
    var n := |body| - 1;
    if a in Parsed(body[..n]) {
      k := ParsedKeepsFirst(body[..n], a);
      assert body[..n][k] == body[k];
      assert forall j :: 0 <= j < k ==> body[..n][j] == body[j];
    } else {
      k := n;
      ParsedAddresses(body[..n], body[n].url);
      forall j | 0 <= j < n && Usable(body[j])
        ensures body[j].url != body[n].url
      {
        assert body[..n][j] == body[j];
      }
    }
  }

  // ---------------------------------------------------------------------------
  // Conditional requests
  // ---------------------------------------------------------------------------

  /** An entity tag: its opaque part, and whether it is marked weak. */
  datatype ETag = ETag(weak: bool, opaqueTag: string)

  /** The weak comparison of section 8.8.3.2 of RFC 9110, which If-None-Match uses. */
  predicate WeaklyEqual(a: ETag, b: ETag) {
    a.opaqueTag == b.opaqueTag
  }

  datatype Request = Request(ifNoneMatch: Option<ETag>, ifModifiedSince: Option<int>)

  datatype Response =
    | NetworkError
    | HttpStatus(code: int)
    | NotModified
    | Page(body: Body, etag: Option<ETag>)

  /** One row of `sources`, with the articles table it fills and the errors recorded for it. */
  datatype State = State(
    articles: seq<Article>,
    lastEtag: Option<ETag>,
    lastFetchAt: Option<int>,
    errors: seq<string>
  )

  function ConditionalHeaders(s: State): Request {
    Request(s.lastEtag, s.lastFetchAt)
  }

  /** What the fetch reports: articles to store, nothing changed, or an error. */
  datatype FetchResult =
    | Unchanged
    | Broken(errorType: string)
    | Read(articles: seq<NewArticle>, etag: Option<ETag>)

  function FetchSource(response: Response): FetchResult {
    match response
    case NetworkError => Broken("network")
    case NotModified => Unchanged
    case HttpStatus(_) => Broken("http_status")
    case Page(body, etag) => if Parsed(body) == [] then Broken("empty_result") else Read(Parsed(body), etag)
  }

  /** How far a pass got before the process died: all the way, or only as far as saving articles. */
  datatype Fate = Finished | DiedBeforeMark

  /** Each outcome's statements, in order; the articles are saved before the validator is. */
  function Handled(s: State, response: Response, now: int, fate: Fate): State {
    match FetchSource(response)
    case Unchanged => if fate.Finished? then s.(lastFetchAt := Some(now)) else s
    case Broken(errorType) => if fate.Finished? then s.(errors := s.errors + [errorType]) else s
    case Read(articles, etag) =>
      var saved := s.(articles := InsertAll(s.articles, articles));
      if fate.Finished? then saved.(lastFetchAt := Some(now), lastEtag := etag) else saved
  }

  class Source {
    var articles: seq<Article>
    var lastEtag: Option<ETag>
    var lastFetchAt: Option<int>
    var errors: seq<string>

    function Contents(): State
      reads this
    {
      State(articles, lastEtag, lastFetchAt, errors)
    }

    method SaveArticles(rows: seq<NewArticle>)
      modifies this
      ensures Contents() == old(Contents()).(articles := InsertAll(old(articles), rows))
    {
      var stored := articles;
      for i := 0 to |rows|
        invariant unchanged(this)
        invariant stored == InsertAll(articles, rows[..i])
      {
        assert rows[..i + 1][..i] == rows[..i];
        stored := Insert(stored, rows[i]);
      }
      assert rows[..|rows|] == rows;
      articles := stored;
    }

    method MarkFetched(etag: Option<ETag>, now: int)
      modifies this
      ensures Contents() == old(Contents()).(lastFetchAt := Some(now), lastEtag := etag)
    {
      lastFetchAt, lastEtag := Some(now), etag;
    }

    method MarkUnchanged(now: int)
      modifies this
      ensures Contents() == old(Contents()).(lastFetchAt := Some(now))
    {
      lastFetchAt := Some(now);
    }

    method RecordError(errorType: string)
      modifies this
      ensures Contents() == old(Contents()).(errors := old(errors) + [errorType])
    {
      errors := errors + [errorType];
    }

    /** What one pass does with one source's response. */
    method RunSource(response: Response, dryRun: bool, now: int)
      modifies this
      ensures Contents() == if dryRun then old(Contents()) else Handled(old(Contents()), response, now, Finished)
    {
      var result := FetchSource(response);
      if result.Unchanged? {
        if !dryRun {
          MarkUnchanged(now);
        }
        return;
      }
      if result.Broken? {
        if !dryRun {
          RecordError(result.errorType);
        }
        return;
      }
      if !dryRun {
        SaveArticles(result.articles);
        MarkFetched(result.etag, now);
      }
    }
  }

  // ---------------------------------------------------------------------------
  // The server, and whole runs
  // ---------------------------------------------------------------------------

  /** How a server tags its content. */
  type Tagging = Body -> ETag

  /** Different contents never share a tag, even up to weakness. */
  ghost predicate Distinguishes(tag: Tagging) {
    forall a, b :: WeaklyEqual(tag(a), tag(b)) ==> a == b
  }

  /**
   * An answer to `request` that a conforming server gives while it holds `current`: a page is the
   * current content under its tag; with If-None-Match a 304 means that tag matches, and
   * If-Modified-Since is then ignored; without either header there is no 304 (sections 13.1.2
   * and 13.2.2 of RFC 9110). With If-Modified-Since alone a 304 may mean anything.
   */
  ghost predicate Conforms(tag: Tagging, current: Body, request: Request, response: Response) {
    match response
    case Page(body, etag) => body == current && etag == Some(tag(current))
    case NotModified =>
      if request.ifNoneMatch.Some? then WeaklyEqual(request.ifNoneMatch.value, tag(current))
      else request.ifModifiedSince.Some?
    case _ => true
  }

  /** One read of the source while the portal holds `current`, or something else that stores articles. */
  datatype Event =
    | Pass(current: Body, response: Response, now: int, fate: Fate)
    | OthersSave(rows: seq<NewArticle>)

  function After(s: State, e: Event): State {
    match e
    case Pass(_, response, now, fate) => Handled(s, response, now, fate)
    case OthersSave(rows) => s.(articles := InsertAll(s.articles, rows))
  }

  ghost predicate Allowed(s: State, e: Event, tag: Tagging) {
    e.Pass? ==> Conforms(tag, e.current, ConditionalHeaders(s), e.response)
  }

  ghost predicate AllStored(articles: seq<Article>, rows: seq<NewArticle>) {
    forall row :: row in rows ==> Stored(articles, row.urlHash)
  }

  /**
   * The held tag names content whose articles are all stored; and with no tag held there is no
   * fetch time either, so the next request is unconditional.
   */
  ghost predicate Faithful(s: State, tag: Tagging) {
    && UniqueHashes(s.articles)
    && (s.lastEtag.None? ==> s.lastFetchAt.None?)
    && (s.lastEtag.Some? ==> exists body :: s.lastEtag.value == tag(body) && AllStored(s.articles, Parsed(body)))
  }

  lemma StoredStays(before: seq<Article>, rows: seq<NewArticle>, wanted: seq<NewArticle>)
    requires UniqueHashes(before) && AllStored(before, wanted)
    ensures AllStored(InsertAll(before, rows), wanted)
  {
    InsertAllKeeps(before, rows);
    var after := InsertAll(before, rows);
    forall row | row in wanted
      ensures Stored(after, row.urlHash)
    {
      var i :| 0 <= i < |before| && before[i].urlHash == row.urlHash;
      assert after[i] == before[i];
    }
  }

  lemma FaithfulWithMore(s: State, t: State, rows: seq<NewArticle>, tag: Tagging)
    requires Faithful(s, tag)
    requires t.articles == InsertAll(s.articles, rows) && t.lastEtag == s.lastEtag && t.lastFetchAt == s.lastFetchAt
    ensures Faithful(t, tag)
  {
    InsertAllKeeps(s.articles, rows);
    if s.lastEtag.Some? {
      var body :| s.lastEtag.value == tag(body) && AllStored(s.articles, Parsed(body));
      StoredStays(s.articles, rows, Parsed(body));
    }
  }

  lemma EventKeepsFaith(s: State, e: Event, tag: Tagging)
    requires Faithful(s, tag) && Allowed(s, e, tag)
    ensures Faithful(After(s, e), tag)
  {
    match e
    case OthersSave(rows) => FaithfulWithMore(s, After(s, e), rows, tag);
    case Pass(current, response, now, fate) =>
      if response.Page? && Parsed(response.body) != [] {
        InsertAllKeeps(s.articles, Parsed(current));
        if fate.DiedBeforeMark? {
          FaithfulWithMore(s, After(s, e), Parsed(current), tag);
        }
      }
  }

  function StateAfter(events: seq<Event>): State {
    if events == [] then State([], None, None, [])
    else After(StateAfter(events[..|events| - 1]), events[|events| - 1])
  }

  /** The server conforms throughout the run. */
  ghost predicate ConformingRun(tag: Tagging, events: seq<Event>) {
    events != [] ==>
      var init := events[..|events| - 1];
      ConformingRun(tag, init) && Allowed(StateAfter(init), events[|events| - 1], tag)
  }

  lemma {:induction false} RunIsFaithful(tag: Tagging, events: seq<Event>)
    requires ConformingRun(tag, events)
    ensures Faithful(StateAfter(events), tag)
  {
    if events != [] {
      var init := events[..|events| - 1];
      RunIsFaithful(tag, init);
      EventKeepsFaith(StateAfter(init), events[|events| - 1], tag);
    }
  }

  /**
   * A 304 never hides an article: in every run against a conforming server that tags its
   * contents apart, when the next read is answered 304, every article of what the portal holds
   * at that moment is already stored.
   */
  lemma NotModifiedHidesNothing(tag: Tagging, events: seq<Event>, current: Body)
    requires Distinguishes(tag) && ConformingRun(tag, events)
    requires Conforms(tag, current, ConditionalHeaders(StateAfter(events)), NotModified)
    ensures AllStored(StateAfter(events).articles, Parsed(current))
  {
    RunIsFaithful(tag, events);
    var s := StateAfter(events);
    var body :| s.lastEtag.value == tag(body) && AllStored(s.articles, Parsed(body));
    assert WeaklyEqual(tag(body), tag(current));
  }

  /** The validator moves only with a read that yielded articles, and only after they are stored. */
  lemma ValidatorMovesWithArticles(s: State, response: Response, now: int, fate: Fate)
    requires UniqueHashes(s.articles)
    ensures var t := Handled(s, response, now, fate);
            t.lastEtag != s.lastEtag ==>
              && response.Page? && Parsed(response.body) != [] && t.lastEtag == response.etag
              && AllStored(t.articles, Parsed(response.body))
  {
    if response.Page? {
      InsertAllKeeps(s.articles, Parsed(response.body));
    }
  }

  /** What was stored first stays: a later read with the same address changes no text. */
  lemma StoredTextStays(s: State, e: Event, i: nat)
    requires UniqueHashes(s.articles) && i < |s.articles|
    ensures i < |After(s, e).articles| && After(s, e).articles[i] == s.articles[i]
  {
    match e
    case OthersSave(rows) => InsertAllKeeps(s.articles, rows);
    case Pass(_, response, _, _) =>
      if response.Page? {
        InsertAllKeeps(s.articles, Parsed(response.body));
      }
  }

  /**
   * The next request after each answer: it names the tag of the last page with articles, if that
   * had one, and the time of the last such page or 304; a failure or an empty page changes nothing.
   */
  lemma NextRequest(s: State, response: Response, now: int)
    ensures var next := ConditionalHeaders(Handled(s, response, now, Finished));
            match response
            case NotModified => next == Request(s.lastEtag, Some(now))
            case Page(body, etag) =>
              next == if Parsed(body) != [] then Request(etag, Some(now)) else Request(s.lastEtag, s.lastFetchAt)
            case _ => next == Request(s.lastEtag, s.lastFetchAt)
  {
  }

  /**
   * What each answer leaves behind. A 304 moves the fetch time and nothing else; a page with
   * articles stores them, takes over its tag, or the lack of one, and moves the fetch time; a
   * failure or an empty page adds one error row and changes nothing else.
   */
  lemma AnswerLeaves(s: State, response: Response, now: int)
    requires UniqueHashes(s.articles)
    ensures var t := Handled(s, response, now, Finished);
            match response
            case NotModified =>
              t.articles == s.articles && t.lastEtag == s.lastEtag && t.errors == s.errors && t.lastFetchAt == Some(now)
            case Page(body, etag) =>
              if exists k :: 0 <= k < |body| && body[k].title != [] && body[k].url != []
              then
                && s.articles <= t.articles && AllStored(t.articles, Parsed(body))
                && t.lastEtag == etag && t.lastFetchAt == Some(now) && t.errors == s.errors
              else |t.errors| == |s.errors| + 1 && OnlyErrors(s, t)
            case _ => |t.errors| == |s.errors| + 1 && OnlyErrors(s, t)
  {
    if response.Page? {
      var body := response.body;
      InsertAllKeeps(s.articles, Parsed(body));
      if k :| 0 <= k < |body| && body[k].title != [] && body[k].url != [] {
        ParsedAddresses(body, body[k].url);
      }
      if Parsed(body) != [] {
        var a := Parsed(body)[0];
        var k := ParsedKeepsFirst(body, a);
        assert body[k].title != [] && body[k].url != [];
      }
    }
  }

  ghost predicate OnlyErrors(s: State, t: State) {
    t.articles == s.articles && t.lastEtag == s.lastEtag && t.lastFetchAt == s.lastFetchAt && s.errors <= t.errors
  }

  /**
   * What is read of a page, by position: in page order, the entries with a title and a link that
   * are the first of theirs with that link, each with the title and lead it came with.
   */
  lemma {:induction false} ParsedInOrder(body: Body) returns (firsts: seq<nat>)
    ensures Ascending(firsts) && |firsts| == |Parsed(body)|
    ensures forall k: nat :: k in firsts <==> k < |body| && IsFirstUse(body, k)
    ensures forall i :: 0 <= i < |firsts| ==> firsts[i] < |body| && ReadFrom(body[firsts[i]], Parsed(body)[i])
  {
    if body == [] {
      firsts := [];
    } else {
      var n := |body| - 1;
      var init := body[..n];
      var earlier := ParsedInOrder(init);
      ParsedAddresses(init, body[n].url);
      LastIsFirstUse(body);
      forall k: nat | k < n
        ensures IsFirstUse(init, k) <==> IsFirstUse(body, k)
      {
        FirstUseEarlier(body, k);
      }
      firsts := earlier + if IsFirstUse(body, n) then [n] else [];
      assert forall k: nat :: k in firsts <==> k in earlier || (k == n && IsFirstUse(body, n));
    }
  }

  predicate ReadFrom(raw: RawEntry, a: NewArticle) {
    a == NewArticle(raw.url, ArticleText(raw.title, raw.lead))
  }

  /** An entry with a title and a link that no such entry before it has. */
  ghost predicate IsFirstUse(body: Body, k: nat)
    requires k < |body|
  {
    && body[k].title != [] && body[k].url != []
    && forall j :: 0 <= j < k && body[j].title != [] ==> body[j].url != body[k].url
  }

  lemma FirstUseEarlier(body: Body, k: nat)
    requires k + 1 < |body|
    ensures IsFirstUse(body[..|body| - 1], k) <==> IsFirstUse(body, k)
  {
    var init := body[..|body| - 1];
    assert forall j :: 0 <= j <= k ==> init[j] == body[j];
  }

  lemma LastIsFirstUse(body: Body)
    requires body != []
    ensures var n := |body| - 1;
            IsFirstUse(body, n) <==> Usable(body[n]) && body[n].url !in Addresses(Parsed(body[..n]))
  {
    var n := |body| - 1;
    ParsedAddresses(body[..n], body[n].url);
    if body[n].url in Addresses(Parsed(body[..n])) {
      var k :| 0 <= k < n && Usable(body[..n][k]) && body[..n][k].url == body[n].url;
      assert body[..n][k] == body[k];
      assert !IsFirstUse(body, n);
    }
    if Usable(body[n]) && body[n].url !in Addresses(Parsed(body[..n])) {
      forall j | 0 <= j < n && body[j].title != []
        ensures body[j].url != body[n].url
      {
        assert body[..n][j] == body[j];
      }
    }
  }
}
