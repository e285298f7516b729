/**
 * The public article list, server/api/articles/index.get.ts: the drafts
 * whose status is `published` plus every static article, ordered by
 * publication date, newest first.
 */
module PublicCatalog {
  import opened Common
  import opened Posts
  import opened Sorting
  import opened DraftStore
  import opened AdminCatalog

  /**
   * One listed article. Fields a static article's front matter leaves out
   * stay missing (`None`); only `tags` falls back to the empty list.
   */
  datatype PublicEntry = PublicEntry(
    path: Option<string>,
    title: Option<string>,
    description: Option<string>,
    publishedAt: Option<string>,
    tags: seq<string>,
    source: Source)

  datatype Articles = Articles(articles: seq<PublicEntry>, total: int, dbPosts: int, staticPosts: int)

  /** A published draft as a public article, served under `/articles/<slug>`. */
  function DraftArticle(p: TempPost): (e: PublicEntry) {
    PublicEntry(Some(ArticlesPrefix + p.slug), Some(p.title), Some(p.description), Some(p.publishedAt),
                p.tags, Database)
  }

  /** A static article as listed: its own path and front matter. */
  function StaticArticle(d: StaticDoc): (e: PublicEntry) {
    PublicEntry(d.path, d.title, d.description, d.publishedAt, d.tags.GetOr([]), Static)
  }

  /** The drafts with status `published`, in their given order. */
  function PublishedOnly(ps: seq<TempPost>): (r: seq<TempPost>)
    ensures |r| <= |ps|
    ensures forall p :: p in r <==> p in ps && p.status == Published
    ensures Subsequence(r, ps)
  {
    if |ps| == 0 then []
    else
      var rest := PublishedOnly(ps[1..]);
      assert forall p :: p in ps <==> p == ps[0] || p in ps[1..];
      if ps[0].status == Published then [ps[0]] + rest
      else assert |rest| > 0 ==> rest[0] in rest; rest
  }

  /** Each published post is kept as often as it occurs; every other post is dropped. */
  lemma {:induction false} PublishedOnlyCounts(ps: seq<TempPost>, p: TempPost)
    ensures multiset(PublishedOnly(ps))[p] == (if p.status == Published then multiset(ps)[p] else 0)
    decreases |ps|
  {
    if |ps| > 0 {
      PublishedOnlyCounts(ps[1..], p);
      assert ps == [ps[0]] + ps[1..];
    }
  }

  function DraftArticles(ps: seq<TempPost>): (r: seq<PublicEntry>)
    ensures |r| == |ps|
    ensures forall i :: 0 <= i < |ps| ==> r[i] == DraftArticle(ps[i])
  {
    seq(|ps|, i requires 0 <= i < |ps| => DraftArticle(ps[i]))
  }

  function StaticArticles(ds: seq<StaticDoc>): (r: seq<PublicEntry>)
    ensures |r| == |ds|
    ensures forall i :: 0 <= i < |ds| ==> r[i] == StaticArticle(ds[i])
  {
    seq(|ds|, i requires 0 <= i < |ds| => StaticArticle(ds[i]))
  }

  /** The sort key: the time of `publishedAt`, where a missing date reads like "". */
  function ByPublished(time: string -> int): (PublicEntry -> int) {
    (e: PublicEntry) => time(e.publishedAt.GetOr(""))
  }

  /**
   * The handler. Drafts come from `getAllTempPosts`, which may repair the
   * index and never throws; `statics` is `None` when the content query
   * throws, and the list then holds only the published drafts.
   */
  function ListArticles(st: Store, io: ListIo, statics: Option<seq<StaticDoc>>, time: string -> int)
    : (out: (Store, Articles))
    ensures out.0.kv == st.kv
    ensures out.1.total == |out.1.articles| == out.1.dbPosts + out.1.staticPosts
    ensures out.1.staticPosts == (if statics.None? then 0 else |statics.value|)
    ensures out.1.dbPosts <= |GetAll(st, io, time).1|
  {
    var (st', drafts) := GetAll(st, io, time);
    var published := PublishedOnly(drafts);
    var docs := statics.GetOr([]);
    var all := DraftArticles(published) + StaticArticles(docs);
    (st', Articles(SortDesc(all, ByPublished(time)), |all|, |published|, |docs|))
  }

  /**
   * The list is ordered by publication date, newest first, and holds one
   * entry per published draft and one per static article.
   */
  lemma ArticlesContents(st: Store, io: ListIo, statics: Option<seq<StaticDoc>>, time: string -> int)
    ensures var (st', list) := ListArticles(st, io, statics, time);
      && st' == GetAll(st, io, time).0
      && SortedDesc(list.articles, ByPublished(time))
      && multiset(list.articles)
         == multiset(DraftArticles(PublishedOnly(GetAll(st, io, time).1)) + StaticArticles(statics.GetOr([])))
  {
    var all := DraftArticles(PublishedOnly(GetAll(st, io, time).1)) + StaticArticles(statics.GetOr([]));
    SortDescCorrect(all, ByPublished(time));
  }

  /** Every database entry of the public list is made from a listed draft whose status is `published`. */
  lemma {:induction false} DatabaseEntriesPublished(st: Store, io: ListIo, statics: Option<seq<StaticDoc>>,
                                                    time: string -> int)
    ensures forall e :: e in ListArticles(st, io, statics, time).1.articles && e.source.Database? ==>
      exists p :: p in GetAll(st, io, time).1 && p.status == Published && e == DraftArticle(p)
  {
    var published := PublishedOnly(GetAll(st, io, time).1);
    var all := DraftArticles(published) + StaticArticles(statics.GetOr([]));
    ArticlesContents(st, io, statics, time);
    forall e | e in ListArticles(st, io, statics, time).1.articles && e.source.Database?
      ensures exists p :: p in GetAll(st, io, time).1 && p.status == Published && e == DraftArticle(p)
    {
      assert e in multiset(all);
      var i :| 0 <= i < |all| && all[i] == e;
      assert i < |published|;
      assert published[i] in published;
    }
  }

  /**
   * Two drafts give the same public entry only when they agree on every
   * field the entry shows, so the entry pins down the draft's slug.
   */
  lemma DraftArticleInjective(a: TempPost, b: TempPost)
    requires DraftArticle(a) == DraftArticle(b)
    ensures a.slug == b.slug && a.title == b.title && a.publishedAt == b.publishedAt
  {
    assert (ArticlesPrefix + a.slug)[|ArticlesPrefix|..] == a.slug;
    assert (ArticlesPrefix + b.slug)[|ArticlesPrefix|..] == b.slug;
  }

  /** Every published draft in the store listing appears in the public list. */
  lemma {:induction false} PublishedShown(st: Store, io: ListIo, statics: Option<seq<StaticDoc>>,
                                          time: string -> int, p: TempPost)
    requires p in GetAll(st, io, time).1 && p.status == Published
    ensures DraftArticle(p) in ListArticles(st, io, statics, time).1.articles
  {
    var published := PublishedOnly(GetAll(st, io, time).1);
    var all := DraftArticles(published) + StaticArticles(statics.GetOr([]));
    ArticlesContents(st, io, statics, time);
    var i :| 0 <= i < |published| && published[i] == p;
    assert all[i] == DraftArticle(p);
    assert DraftArticle(p) in multiset(all);
  }

  /**
   * The public path of a draft is the path the editor's list turns back
   * into the same slug.
   */
  lemma DraftPathRoundTrip(p: TempPost, d: StaticDoc)
    requires d.path == DraftArticle(p).path
    ensures FromStatic(d).slug == p.slug
  {
    StaticSlugOfArticlePath(d, p.slug);
  }

  /** When the content query fails only published drafts are listed. */
  lemma {:induction false} StaticFailureListsDrafts(st: Store, io: ListIo, time: string -> int)
    ensures var list := ListArticles(st, io, None, time).1;
      && list.staticPosts == 0
      && forall e :: e in list.articles ==> e.source.Database?
  {
    var published := PublishedOnly(GetAll(st, io, time).1);
    ArticlesContents(st, io, None, time);
    assert DraftArticles(published) + StaticArticles([]) == DraftArticles(published);
    forall e | e in ListArticles(st, io, None, time).1.articles
      ensures e.source.Database?
    {
      assert e in multiset(DraftArticles(published));
      var i :| 0 <= i < |published| && DraftArticles(published)[i] == e;
    }
  }

  /** When the slug index cannot be read the draft listing is empty, so only static articles are listed. */
  lemma {:induction false} StoreOutageListsStatics(st: Store, io: ListIo, statics: Option<seq<StaticDoc>>,
                                                   time: string -> int)
    requires io.indexRead.Fail?
    ensures ListArticles(st, io, statics, time).0 == st
    ensures ListArticles(st, io, statics, time).1.dbPosts == 0
    ensures forall e :: e in ListArticles(st, io, statics, time).1.articles ==> e.source.Static?
  {
    GetAllIndexFailure(st, io, time);
    var drafts := GetAll(st, io, time).1;
    assert drafts == [];
    var published := PublishedOnly(drafts);
    assert |published| == 0;
    var docs := statics.GetOr([]);
    var all := DraftArticles(published) + StaticArticles(docs);
    assert all == StaticArticles(docs);
    ArticlesContents(st, io, statics, time);
    forall e | e in ListArticles(st, io, statics, time).1.articles
      ensures e.source.Static?
    {
      assert e in multiset(all);
      var i :| 0 <= i < |docs| && all[i] == e;
    }
  }
}
