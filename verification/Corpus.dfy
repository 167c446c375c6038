/**
 * The stored corpus: the tables the analyser, the ingest pass, the evaluation sweep and the gold
 * loader write, one function for each statement they execute, and the integrity checks of
 * src/evals/audit_data.py as predicates over the tables.
 *
 * Rows are never deleted from `articles`, `analyses` or `findings`, so a row's id is its
 * position. Ids are time-ordered in the schema (uuidv7), so positions also give the id order.
 */
module Corpus {
  import opened Wrappers
  import opened Typography
  import opened Analyze

  const MAX_ATTEMPTS: nat := 3

  datatype Status = Pending | Analyzed | Failed | FailedPermanent

  datatype Article = Article(
    urlHash: string,
    text: ArticleText,
    category: Option<Category>,
    status: Status,
    attempts: nat,
    lastAttempt: Option<int>
  )

  datatype AnalysisRow = AnalysisRow(article: nat, parsed: bool)

  datatype FindingRow = FindingRow(analysis: nat, finding: VerifiedFinding)

  datatype Db = Db(
    articles: seq<Article>,
    analyses: seq<AnalysisRow>,
    findings: seq<FindingRow>,
    gold: set<nat>
  )

  const EMPTY: Db := Db([], [], [], {})

  // ---------------------------------------------------------------------------
  // Statements
  // ---------------------------------------------------------------------------

  /** What a fetched or labelled article carries into its INSERT. */
  datatype NewArticle = NewArticle(urlHash: string, text: ArticleText)

  predicate Stored(articles: seq<Article>, urlHash: string) {
    exists i :: 0 <= i < |articles| && articles[i].urlHash == urlHash
  }

  /** INSERT ... ON CONFLICT (url_hash) DO NOTHING. */
  function Insert(articles: seq<Article>, row: NewArticle): seq<Article> {
    if Stored(articles, row.urlHash) then articles
    else articles + [Article(row.urlHash, row.text, None, Pending, 0, None)]
  }

  function InsertAll(articles: seq<Article>, rows: seq<NewArticle>): seq<Article> {
    if rows == [] then articles
    else Insert(InsertAll(articles, rows[..|rows| - 1]), rows[|rows| - 1])
  }

  /** The status and category one finished analysis implies: an unparseable reply is terminal. */
  function Outcome(parsed: bool, category: Option<Category>): (Status, Option<Category>) {
    if parsed then (Analyzed, category) else (Failed, None)
  }

  function Judged(article: Article, status: Status, category: Option<Category>): Article {
    article.(status := status, category := if category.Some? then category else article.category)
  }

  function MarkAnalyzed(articles: seq<Article>, id: nat, status: Status, category: Option<Category>): seq<Article> {
    if id < |articles| then articles[id := Judged(articles[id], status, category)] else articles
  }

  /** One more attempt charged; out of attempts, the article is retired. */
  function Charged(article: Article, now: int): Article {
    article.(
      attempts := article.attempts + 1,
      lastAttempt := Some(now),
      status := if article.attempts + 1 >= MAX_ATTEMPTS then FailedPermanent else article.status
    )
  }

  /** UPDATE ... WHERE id = ANY(ids): each named article once, however often it is named. */
  function BumpAttempts(articles: seq<Article>, ids: set<nat>, now: int): (r: seq<Article>)
    ensures |r| == |articles|
    ensures forall i :: 0 <= i < |articles| ==> r[i] == if i in ids then Charged(articles[i], now) else articles[i]
  {
    seq(|articles|, i requires 0 <= i < |articles| => if i in ids then Charged(articles[i], now) else articles[i])
  }

  function Fresh(article: Article): Article {
    article.(status := Pending, attempts := 0, lastAttempt := None)
  }

  /** The requeue of `make reanalyze`: among the stale articles, those analysed and not gold. */
  function Requeue(db: Db, stale: set<nat>): (r: seq<Article>)
    ensures |r| == |db.articles|
    ensures forall i :: 0 <= i < |r| ==>
              r[i] == if i in stale && i !in db.gold && db.articles[i].status == Analyzed
                      then Fresh(db.articles[i]) else db.articles[i]
  {
    seq(|db.articles|, i requires 0 <= i < |db.articles| =>
      if i in stale && i !in db.gold && db.articles[i].status == Analyzed
      then Fresh(db.articles[i]) else db.articles[i])
  }

  function FindingRows(analysis: nat, findings: seq<VerifiedFinding>): (rows: seq<FindingRow>)
    ensures |rows| == |findings|
    ensures forall i :: 0 <= i < |rows| ==> rows[i] == FindingRow(analysis, findings[i])
  {
    seq(|findings|, i requires 0 <= i < |findings| => FindingRow(analysis, findings[i]))
  }

  // ---------------------------------------------------------------------------
  // The integrity checks, as SQL states them
  // ---------------------------------------------------------------------------

  /** `substring(text FROM start FOR count)`: NULL in, NULL out; positions outside the text are ignored. */
  function SqlSubstring(text: Option<Text>, start: int, count: nat): Option<Text> {
    match text
    case None => None
    case Some(t) =>
      var lo := if start < 1 then 0 else if start - 1 > |t| then |t| else start - 1;
      var stop := start - 1 + count;
      var hi := if stop < lo then lo else if stop > |t| then |t| else stop;
      Some(t[lo..hi])
  }

  /** `char_length`: NULL for NULL, and a comparison with NULL is not true. */
  function SqlLength(text: Option<Text>): Option<nat> {
    match text
    case None => None
    case Some(t) => Some(|t|)
  }

  /** The article a finding joins to, through its analysis; None when the join has no row. */
  function ArticleOf(db: Db, row: FindingRow): Option<Article> {
    if row.analysis < |db.analyses| && db.analyses[row.analysis].article < |db.articles|
    then Some(db.articles[db.analyses[row.analysis].article])
    else None
  }

  /** Violations of "quote matches its offsets". */
  predicate QuoteMismatch(db: Db, row: FindingRow) {
    var article, f := ArticleOf(db, row), row.finding;
    article.Some? && f.start <= f.end
    && SqlSubstring(article.value.text.Of(f.field), f.start + 1, f.end - f.start) != Some(f.quote)
  }

  /** Violations of "offsets inside the field". */
  predicate OffsetsOutside(db: Db, row: FindingRow) {
    var article, f := ArticleOf(db, row), row.finding;
    article.Some?
    && var length := SqlLength(article.value.text.Of(f.field));
       f.start < 0 || (length.Some? && f.end > length.value) || f.end <= f.start
  }

  /** Violations of "findings in a field the article has". */
  predicate FieldMissing(db: Db, row: FindingRow) {
    var article := ArticleOf(db, row);
    article.Some? && row.finding.field == Lead
    && (article.value.text.lead == None || article.value.text.lead == Some([]))
  }

  predicate HasAnalysis(db: Db, id: nat) {
    exists k :: 0 <= k < |db.analyses| && db.analyses[k].article == id
  }

  /** Every check counts zero violations. */
  ghost predicate AuditPasses(db: Db) {
    && (forall i :: 0 <= i < |db.findings| ==> !QuoteMismatch(db, db.findings[i]))
    && (forall i :: 0 <= i < |db.findings| ==> !OffsetsOutside(db, db.findings[i]))
    && (forall i :: 0 <= i < |db.findings| ==> !FieldMissing(db, db.findings[i]))
    && (forall i :: 0 <= i < |db.articles| && db.articles[i].status == Analyzed ==> HasAnalysis(db, i))
    && (forall i :: 0 <= i < |db.articles| ==>
          !(db.articles[i].status == Pending && db.articles[i].attempts >= MAX_ATTEMPTS))
  }

  // ---------------------------------------------------------------------------
  // What every statement keeps
  // ---------------------------------------------------------------------------

  /** Each finding belongs to a stored analysis of a stored article, and is genuine there. */
  ghost predicate Sound(db: Db) {
    && (forall k :: 0 <= k < |db.analyses| ==> db.analyses[k].article < |db.articles|)
    && (forall i :: 0 <= i < |db.findings| ==> RowSound(db, db.findings[i]))
    && (forall i :: 0 <= i < |db.articles| && db.articles[i].status == Analyzed ==> HasAnalysis(db, i))
    && (forall i :: 0 <= i < |db.articles| ==> Live(db.articles[i]))
    && UniqueHashes(db.articles)
  }

  ghost predicate RowSound(db: Db, row: FindingRow) {
    && row.analysis < |db.analyses|
    && db.analyses[row.analysis].article < |db.articles|
    && Genuine(row.finding, db.articles[db.analyses[row.analysis].article].text)
  }

  /** A queued article has attempts left. */
  predicate Live(article: Article) {
    article.status == Pending ==> article.attempts < MAX_ATTEMPTS
  }

  lemma SubstringOfGenuine(text: Text, start: nat, end: nat)
    requires start < end <= |text|
    ensures SqlSubstring(Some(text), start + 1, end - start) == Some(text[start..end])
  {
  }

  lemma RowSoundPasses(db: Db, row: FindingRow)
    requires RowSound(db, row)
    ensures !QuoteMismatch(db, row) && !OffsetsOutside(db, row) && !FieldMissing(db, row)
  {
    var f := row.finding;
    var text := ArticleOf(db, row).value.text.Of(f.field);
    SubstringOfGenuine(text.value, f.start, f.end);
  }

  lemma SoundPassesAudit(db: Db)
    requires Sound(db)
    ensures AuditPasses(db)
  {
    forall i | 0 <= i < |db.findings|
      ensures !QuoteMismatch(db, db.findings[i]) && !OffsetsOutside(db, db.findings[i])
              && !FieldMissing(db, db.findings[i])
    {
      RowSoundPasses(db, db.findings[i]);
    }
  }

  /** Nothing published is rewritten: articles keep their text, analyses and findings only accumulate. */
  ghost predicate Extends(before: Db, after: Db) {
    && |before.articles| <= |after.articles|
    && (forall i :: 0 <= i < |before.articles| ==> SameIdentity(before.articles[i], after.articles[i]))
    && before.analyses <= after.analyses
    && before.findings <= after.findings
  }

  predicate SameIdentity(a: Article, b: Article) {
    a.urlHash == b.urlHash && a.text == b.text
  }

  lemma ExtendsTransitive(a: Db, b: Db, c: Db)
    requires Extends(a, b) && Extends(b, c)
    ensures Extends(a, c)
  {
    forall i | 0 <= i < |a.articles|
      ensures SameIdentity(a.articles[i], c.articles[i])
    {
      assert SameIdentity(a.articles[i], b.articles[i]) && SameIdentity(b.articles[i], c.articles[i]);
    }
  }

  lemma RowStaysSound(before: Db, after: Db, row: FindingRow)
    requires Extends(before, after) && RowSound(before, row)
    ensures RowSound(after, row)
  {
    var id := before.analyses[row.analysis].article;
    assert after.analyses[row.analysis] == before.analyses[row.analysis];
    assert SameIdentity(before.articles[id], after.articles[id]);
  }

  lemma AnalysisStays(before: Db, after: Db, id: nat)
    requires Extends(before, after) && HasAnalysis(before, id)
    ensures HasAnalysis(after, id)
  {
    var k :| 0 <= k < |before.analyses| && before.analyses[k].article == id;
    assert after.analyses[k] == before.analyses[k];
  }

  ghost predicate UniqueHashes(articles: seq<Article>) {
    forall i, j :: 0 <= i < j < |articles| ==> articles[i].urlHash != articles[j].urlHash
  }

  /** Inserting keeps what is stored, whatever text arrives under a known URL. */
  lemma {:induction false} InsertAllKeeps(articles: seq<Article>, rows: seq<NewArticle>)
    requires UniqueHashes(articles)
    ensures var r := InsertAll(articles, rows);
            && articles <= r && UniqueHashes(r)
            && (forall i :: |articles| <= i < |r| ==>
                  r[i].status == Pending && r[i].attempts == 0 && r[i].lastAttempt == None)
            && (forall row :: row in rows ==> Stored(r, row.urlHash))
  {
    if rows != [] {
      var last := |rows| - 1;
      InsertAllKeeps(articles, rows[..last]);
      var earlier, r := InsertAll(articles, rows[..last]), InsertAll(articles, rows);
      assert earlier <= r;
      forall row | row in rows
        ensures Stored(r, row.urlHash)
      {
        if row in rows[..last] {
          var i :| 0 <= i < |earlier| && earlier[i].urlHash == row.urlHash;
          assert r[i].urlHash == row.urlHash;
        } else {
          assert row == rows[last];
          assert !Stored(earlier, row.urlHash) ==> r[|earlier|].urlHash == row.urlHash;
        }
      }
    }
  }

  /** No earlier row offers the same address. */
  ghost predicate FirstOffered(rows: seq<NewArticle>, k: nat) {
    k < |rows| && forall j :: 0 <= j < k ==> rows[j].urlHash != rows[k].urlHash
  }

  /** The article waits in the queue with this text under this address, never tried and not yet classified. */
  ghost predicate WaitsAt(articles: seq<Article>, i: nat, row: NewArticle) {
    i < |articles| && articles[i] == Article(row.urlHash, row.text, None, Pending, 0, None)
  }

  /** Of the rows offered, the first with each new address is stored, with its own title and lead. */
  lemma {:induction false} InsertAllCarries(articles: seq<Article>, rows: seq<NewArticle>, k: nat) returns (i: nat)
    requires UniqueHashes(articles) && FirstOffered(rows, k) && !Stored(articles, rows[k].urlHash)
    ensures |articles| <= i && WaitsAt(InsertAll(articles, rows), i, rows[k])
  {
    var n := |rows| - 1;
    var init := rows[..n];
    InsertAllKeeps(articles, init);
    if k < n {
      assert init[k] == rows[k] && FirstOffered(init, k);
      i := InsertAllCarries(articles, init, k);
    } else {
      i := |InsertAll(articles, init)|;
      if Stored(InsertAll(articles, init), rows[k].urlHash) {
        var j := InsertAllOffered(articles, init, rows[k].urlHash);
        assert false;
      }
    }
  }

  /** Nothing is stored that was neither stored before nor offered. */
  lemma {:induction false} InsertAllOffered(articles: seq<Article>, rows: seq<NewArticle>, urlHash: string)
    returns (k: nat)
    requires Stored(InsertAll(articles, rows), urlHash) && !Stored(articles, urlHash)
    ensures k < |rows| && rows[k].urlHash == urlHash
  {
    var n := |rows| - 1;
    if Stored(InsertAll(articles, rows[..n]), urlHash) {
      k := InsertAllOffered(articles, rows[..n], urlHash);
    } else {
      k := n;
    }
  }
}
