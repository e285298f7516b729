/**
 * The draft record (`TempPost`), the creation input (`TempPostInput`), the
 * partial patch accepted by `updateTempPost`, and the key and path naming
 * scheme, from server/utils/tempPostManager.ts.
 */
module Posts {
  import opened Common
  import opened Slug

  datatype Status = Draft | Pending | Published

  /**
   * A draft record as stored under `temp-post:{slug}`. Dates and timestamps
   * are kept as the strings the source stores; `id` is the opaque value of
   * `generatePostId`.
   */
  datatype TempPost = TempPost(
    id: string,
    slug: string,
    title: string,
    description: string,
    content: string,
    publishedAt: string,
    tags: seq<string>,
    sendAsNewsletter: bool,
    newsletterSentAt: Option<string>,
    createdAt: string,
    updatedAt: string,
    status: Status)

  /** The fields `createTempPost` reads from its input. */
  datatype PostInput = PostInput(
    title: string,
    description: string,
    content: string,
    publishedAt: string,
    tags: seq<string>,
    sendAsNewsletter: bool)

  /**
   * `Partial<TempPostInput>`: a field that is `None` is absent from the
   * object and so does not override the stored value when spread.
   */
  datatype Patch = Patch(
    title: Option<string>,
    description: Option<string>,
    content: Option<string>,
    publishedAt: Option<string>,
    tags: Option<seq<string>>,
    sendAsNewsletter: Option<bool>,
    status: Option<Status>)

  /** A patch that only sets the status: what publish and unpublish send. */
  function StatusPatch(status: Status): Patch {
    Patch(None, None, None, None, None, None, Some(status))
  }

  /** `{ ...existing, ...data, slug, updatedAt: now }`. */
  function Merge(existing: TempPost, patch: Patch, slug: string, now: string): TempPost {
    existing.(
      slug := slug,
      title := patch.title.GetOr(existing.title),
      description := patch.description.GetOr(existing.description),
      content := patch.content.GetOr(existing.content),
      publishedAt := patch.publishedAt.GetOr(existing.publishedAt),
      tags := patch.tags.GetOr(existing.tags),
      sendAsNewsletter := patch.sendAsNewsletter.GetOr(existing.sendAsNewsletter),
      status := patch.status.GetOr(existing.status),
      updatedAt := now)
  }

  const ArticlesDir: string := "content/articles/"

  /** Where the materialised file of a slug goes: `content/articles/{slug}.md`. */
  function ArticlePath(slug: string): string {
    ArticlesDir + slug + ".md"
  }

  /**
   * Distinct slugs are materialised to distinct files. The path is built
   * with `path.join`, which would fold `..` and repeated `/`; slug-shaped
   * names hold neither, so for them the join is plain concatenation.
   */
  lemma ArticlePathInjective(a: string, b: string)
    requires IsSlug(a) && IsSlug(b)
    requires ArticlePath(a) == ArticlePath(b)
    ensures a == b
  {
    var pa, pb := ArticlePath(a), ArticlePath(b);
    assert |a| == |b|;
    assert a == pa[|ArticlesDir|..|ArticlesDir| + |a|];
    assert b == pb[|ArticlesDir|..|ArticlesDir| + |b|];
  }

  /** The key-value key of a draft. */
  function PostKey(slug: string): string {
    "temp-post:" + slug
  }

  /** The key-value key of a deletion marker. */
  function MarkerKey(slug: string): string {
    "delete-post:" + slug
  }
}
