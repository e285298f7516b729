/**
 * The editor's post list, server/api/admin/posts/index.get.ts: every draft
 * from the key-value store (editable) followed by every static article of
 * the content collection (read-only), newest change first.
 */
module AdminCatalog {
  import opened Common
  import opened Text
  import opened Posts
  import opened Sorting
  import opened DraftStore

  /**
   * A document the content collection returns for a path under
   * `/articles`. Front-matter fields may be missing (`None`); `path` is
   * `_path`, which the collection normally sets.
   */
  datatype StaticDoc = StaticDoc(
    id: string,
    path: Option<string>,
    title: Option<string>,
    description: Option<string>,
    publishedAt: Option<string>,
    tags: Option<seq<string>>,
    sendAsNewsletter: Option<bool>,
    newsletterSentAt: Option<string>)

  datatype Source = Database | Static

  /**
   * One row of the listing. A database row carries the whole draft
   * (`content` included); a static row has no `content`.
   */
  datatype AdminEntry = AdminEntry(
    id: string,
    slug: string,
    title: string,
    description: string,
    content: Option<string>,
    publishedAt: string,
    tags: seq<string>,
    sendAsNewsletter: bool,
    newsletterSentAt: Option<string>,
    createdAt: string,
    updatedAt: string,
    status: Status,
    source: Source,
    isPublished: bool,
    isEditable: bool,
    isDeletable: bool)

  datatype AdminReply =
    | Unauthorized
    | Listing(posts: seq<AdminEntry>, total: int, tempCount: int, publishedCount: int)

  const ArticlesPrefix: string := "/articles/"

  /** A draft as listed: all of its fields, marked editable and deletable. */
  function FromDraft(p: TempPost): (e: AdminEntry)
    ensures DraftOf(e) == Some(p)
    ensures e.source == Database && !e.isPublished && e.isEditable && e.isDeletable
  {
    AdminEntry(p.id, p.slug, p.title, p.description, Some(p.content), p.publishedAt, p.tags,
               p.sendAsNewsletter, p.newsletterSentAt, p.createdAt, p.updatedAt, p.status,
               Database, false, true, true)
  }

  /** `value || ''` for an optional string: a missing or empty value gives "". */
  function OrEmpty(value: Option<string>): (r: string)
    ensures value.Some? ==> r == value.value
    ensures value.None? ==> r == ""
  {
    value.GetOr("")
  }

  /**
   * A static article as listed: the slug is the path with its first
   * `/articles/` removed, missing texts become "", the article's own date
   * stands for both creation and update, and the row is read-only.
   */
  function FromStatic(d: StaticDoc): (e: AdminEntry)
    ensures DraftOf(e) == None
    ensures e.source == Static && e.isPublished && !e.isEditable && !e.isDeletable
    ensures e.status == Published && e.content == None
    ensures e.id == d.id && e.tags == d.tags.GetOr([])
    ensures e.title == OrEmpty(d.title) && e.description == OrEmpty(d.description)
    ensures e.publishedAt == OrEmpty(d.publishedAt)
    ensures d.path.None? ==> e.slug == ""
    ensures e.newsletterSentAt.Some? ==> e.newsletterSentAt == d.newsletterSentAt && e.newsletterSentAt.value != ""
    ensures d.newsletterSentAt.Some? && d.newsletterSentAt.value != "" ==> e.newsletterSentAt == d.newsletterSentAt
    ensures e.createdAt == e.updatedAt == e.publishedAt
    ensures d.publishedAt.Some? ==> ChangedAt(e) == d.publishedAt.value
    ensures e.sendAsNewsletter == (d.sendAsNewsletter == Some(true))
  {
    var date := OrEmpty(d.publishedAt);
    AdminEntry(
      d.id,
      if d.path.None? then "" else ReplaceFirst(d.path.value, ArticlesPrefix, ""),
      OrEmpty(d.title),
      OrEmpty(d.description),
      None,
      date,
      d.tags.GetOr([]),
      d.sendAsNewsletter.GetOr(false),
      if d.newsletterSentAt == Some("") then None else d.newsletterSentAt,
      date,
      date,
      Published,
      Static, true, false, false)
  }

  /** The draft a row was made from; static rows have none. */
  function DraftOf(e: AdminEntry): (r: Option<TempPost>)
    ensures r.Some? <==> e.source.Database? && e.content.Some?
  {
    if e.source.Static? || e.content.None? then None
    else Some(TempPost(e.id, e.slug, e.title, e.description, e.content.value, e.publishedAt, e.tags,
                       e.sendAsNewsletter, e.newsletterSentAt, e.createdAt, e.updatedAt, e.status))
  }

  function FromDrafts(ps: seq<TempPost>): (r: seq<AdminEntry>)
    ensures |r| == |ps|
    ensures forall i :: 0 <= i < |ps| ==> r[i] == FromDraft(ps[i])
  {
    seq(|ps|, i requires 0 <= i < |ps| => FromDraft(ps[i]))
  }

  function FromStatics(ds: seq<StaticDoc>): (r: seq<AdminEntry>)
    ensures |r| == |ds|
    ensures forall i :: 0 <= i < |ds| ==> r[i] == FromStatic(ds[i])
  {
    seq(|ds|, i requires 0 <= i < |ds| => FromStatic(ds[i]))
  }

  /** `updatedAt || createdAt`: the date a row is ordered by. */
  function ChangedAt(e: AdminEntry): (r: string)
    ensures r == "" ==> e.updatedAt == "" && e.createdAt == ""
    ensures r in {e.updatedAt, e.createdAt}
  {
    if e.updatedAt != "" then e.updatedAt else e.createdAt
  }

  /** The sort key: the time of the last change. */
  function ByChange(time: string -> int): (AdminEntry -> int) {
    (e: AdminEntry) => time(ChangedAt(e))
  }

  /**
   * The handler. Without a session user it answers 401 and touches nothing.
   * Otherwise it lists the drafts (which may repair the index) and the
   * static articles; `statics` is `None` when the content query throws,
   * and the listing then goes on without them.
   */
  function AdminList(st: Store, user: bool, io: ListIo, statics: Option<seq<StaticDoc>>,
                     time: string -> int): (out: (Store, AdminReply))
    ensures !user ==> out == (st, Unauthorized)
    ensures user ==> out.1.Listing? && out.0.kv == st.kv
    ensures out.1.Listing? ==>
      && out.1.total == |out.1.posts| == out.1.tempCount + out.1.publishedCount
      && out.1.publishedCount == (if statics.None? then 0 else |statics.value|)
  {
    if !user then (st, Unauthorized)
    else
      var (st', drafts) := GetAll(st, io, time);
      var docs := statics.GetOr([]);
      var all := FromDrafts(drafts) + FromStatics(docs);
      (st', Listing(SortDesc(all, ByChange(time)), |all|, |drafts|, |docs|))
  }

  /**
   * The listing is ordered by last change, newest first, and holds exactly
   * one row per listed draft and one per static article.
   */
  lemma AdminListContents(st: Store, io: ListIo, statics: Option<seq<StaticDoc>>, time: string -> int)
    ensures var (st', reply) := AdminList(st, true, io, statics, time);
      && st' == GetAll(st, io, time).0
      && SortedDesc(reply.posts, ByChange(time))
      && multiset(reply.posts)
         == multiset(FromDrafts(GetAll(st, io, time).1) + FromStatics(statics.GetOr([])))
  {
    var all := FromDrafts(GetAll(st, io, time).1) + FromStatics(statics.GetOr([]));
    SortDescCorrect(all, ByChange(time));
  }

  /** The read-only flags follow the row's origin. */
  predicate FlagsFollowSource(e: AdminEntry) {
    && (e.isEditable <==> e.source.Database?)
    && (e.isDeletable <==> e.source.Database?)
    && (e.isPublished <==> e.source.Static?)
    && (e.source.Static? ==> e.status == Published && e.content.None?)
  }

  /** Every row that came from the store can be edited and deleted; every static one cannot. */
  lemma {:induction false} AdminFlags(st: Store, io: ListIo, statics: Option<seq<StaticDoc>>, time: string -> int)
    ensures forall e :: e in AdminList(st, true, io, statics, time).1.posts ==> FlagsFollowSource(e)
  {
    var all := FromDrafts(GetAll(st, io, time).1) + FromStatics(statics.GetOr([]));
    AdminListContents(st, io, statics, time);
    RowsFollowSource(GetAll(st, io, time).1, statics.GetOr([]));
    forall e | e in AdminList(st, true, io, statics, time).1.posts
      ensures FlagsFollowSource(e)
    {
      assert e in multiset(all);
    }
  }

  /** The rows built from drafts and from static documents all carry the flags of their origin. */
  lemma RowsFollowSource(drafts: seq<TempPost>, docs: seq<StaticDoc>)
    ensures forall e :: e in FromDrafts(drafts) + FromStatics(docs) ==> FlagsFollowSource(e)
  {
    var ds, ss := FromDrafts(drafts), FromStatics(docs);
    forall e | e in ds + ss
      ensures FlagsFollowSource(e)
    {
      if e in ds {
        var i :| 0 <= i < |ds| && ds[i] == e;
      } else {
        var i :| 0 <= i < |ss| && ss[i] == e;
      }
    }
  }

  /** When the content query fails, only drafts are listed. */
  lemma {:induction false} StaticFailureListsDrafts(st: Store, io: ListIo, time: string -> int)
    ensures var reply := AdminList(st, true, io, None, time).1;
      && reply.publishedCount == 0
      && multiset(reply.posts) == multiset(FromDrafts(GetAll(st, io, time).1))
      && forall e :: e in reply.posts ==> e.source == Database
  {
    var drafts := GetAll(st, io, time).1;
    AdminListContents(st, io, None, time);
    assert FromDrafts(drafts) + FromStatics([]) == FromDrafts(drafts);
    var reply := AdminList(st, true, io, None, time).1;
    forall e | e in reply.posts
      ensures e.source == Database
    {
      assert e in multiset(FromDrafts(drafts));
      var i :| 0 <= i < |drafts| && FromDrafts(drafts)[i] == e;
    }
  }

  /** A database row gives back exactly the draft it was made from. */
  lemma DraftRoundTrip(p: TempPost)
    ensures DraftOf(FromDraft(p)) == Some(p)
  {
  }

  /** A static row never passes for a draft. */
  lemma StaticHasNoDraft(d: StaticDoc)
    ensures DraftOf(FromStatic(d)) == None
  {
  }

  /** The slug of a static article at `/articles/<s>` is `s`. */
  lemma StaticSlugOfArticlePath(d: StaticDoc, s: string)
    requires d.path == Some(ArticlesPrefix + s)
    ensures FromStatic(d).slug == s
  {
    assert StartsWith(ArticlesPrefix + s, ArticlesPrefix) by {
      assert (ArticlesPrefix + s)[..|ArticlesPrefix|] == ArticlesPrefix;
    }
    assert (ArticlesPrefix + s)[|ArticlesPrefix|..] == s;
  }

  /** A path that does not mention `/articles/` is kept whole as the slug. */
  lemma StaticSlugWithoutPrefix(d: StaticDoc)
    requires d.path.Some? && !Contains(d.path.value, ArticlesPrefix)
    ensures FromStatic(d).slug == d.path.value
  {
    ReplaceFirstAbsent(d.path.value, ArticlesPrefix, "");
  }

  /**
   * Static rows fill in what the document leaves out: missing texts and
   * date become "", missing tags `[]`, a missing flag false, a missing or
   * empty sent date "never sent", and a missing path the slug "".
   */
  lemma StaticDefaults(d: StaticDoc)
    ensures var e := FromStatic(d);
      && (d.title.None? ==> e.title == "")
      && (d.description.None? ==> e.description == "")
      && (d.publishedAt.None? ==> e.publishedAt == e.createdAt == e.updatedAt == "")
      && (d.tags.None? ==> e.tags == [])
      && (d.sendAsNewsletter.None? ==> !e.sendAsNewsletter)
      && (d.newsletterSentAt.None? || d.newsletterSentAt == Some("") ==> e.newsletterSentAt.None?)
      && (d.path.None? ==> e.slug == "")
  {
  }
}
