/**
 * The key-scan materialisation script, scripts/generate-content.mjs
 * (`generateContent`). It drains every scanned `temp-post:*` key into a
 * markdown file and applies every scanned `delete-post:*` marker, and it
 * never reads or writes the slug index.
 */
module BuildScript {
  import opened Common
  import opened Posts
  import opened Markdown

  /** A deletion marker as stored under `delete-post:{name}`; `slug` is absent when the field is missing. */
  datatype Marker = Marker(slug: Option<string>, deletedAt: string)

  /**
   * What the script sees: draft records by slug (key `temp-post:{slug}`),
   * markers by key suffix (key `delete-post:{name}`), the slug index, which
   * the script leaves alone, and the article files by path.
   */
  datatype World = World(
    posts: map<string, TempPost>,
    markers: map<string, Marker>,
    index: seq<string>,
    files: map<string, string>)

  /** Outcomes of the calls made for one post key: the read, the file write, the key deletion. */
  datatype PostIo = PostIo(read: Io, write: Io, del: Io)

  /**
   * Outcomes of the calls made for one marker: the read, the `access` check
   * when it fails with a code other than `ENOENT`, the `unlink`, and the
   * marker deletion. Whether the file exists is read from the world.
   */
  datatype MarkerIo = MarkerIo(read: Io, access: Io, unlink: Io, del: Io)

  datatype Tally = Tally(world: World, processed: nat, deleted: nat, errors: seq<string>)

  function PostError(slug: string, message: string): string {
    "Failed to process " + PostKey(slug) + ": " + message
  }

  function MarkerError(name: string, message: string): string {
    "Failed to delete content for " + MarkerKey(name) + ": " + message
  }

  /** One post key: skipped when empty, an error (key kept) when a call fails, else written, deleted and counted. */
  function PostStep(t: Tally, slug: string, io: PostIo): (t': Tally)
    ensures t'.world.index == t.world.index && t'.world.markers == t.world.markers
    ensures t'.deleted == t.deleted
    ensures t'.processed + |t'.errors| <= t.processed + |t.errors| + 1
  {
    var w := t.world;
    if io.read.Fail? then t.(errors := t.errors + [PostError(slug, io.read.message)])
    else if slug !in w.posts then t
    else
      var post := w.posts[slug];
      if io.write.Fail? then t.(errors := t.errors + [PostError(slug, io.write.message)])
      else
        var files := w.files[ArticlePath(post.slug) := ToMarkdown(post)];
        if io.del.Fail? then
          t.(world := w.(files := files), errors := t.errors + [PostError(slug, io.del.message)])
        else
          t.(world := w.(posts := w.posts - {slug}, files := files), processed := t.processed + 1)
  }

  /**
   * One marker. A missing marker, or one without a (non-empty) slug, is
   * skipped and kept. Otherwise the file is removed if it exists (counted)
   * and left alone if it does not; an access or unlink failure is an error
   * and keeps the marker; finally the marker is deleted.
   */
  function MarkerStep(t: Tally, name: string, io: MarkerIo): (t': Tally)
    ensures t'.world.index == t.world.index && t'.world.posts == t.world.posts
    ensures t'.processed == t.processed
  {
    var w := t.world;
    if io.read.Fail? then t.(errors := t.errors + [MarkerError(name, io.read.message)])
    else if name !in w.markers || w.markers[name].slug.None? || w.markers[name].slug.value == "" then t
    else
      var path := ArticlePath(w.markers[name].slug.value);
      if io.access.Fail? then t.(errors := t.errors + [MarkerError(name, io.access.message)])
      else if path in w.files && io.unlink.Fail? then t.(errors := t.errors + [MarkerError(name, io.unlink.message)])
      else
        var t1 :=
          if path in w.files then t.(world := w.(files := w.files - {path}), deleted := t.deleted + 1) else t;
        if io.del.Fail? then t1.(errors := t1.errors + [MarkerError(name, io.del.message)])
        else t1.(world := t1.world.(markers := t1.world.markers - {name}))
  }

  function DrainPosts(t: Tally, slugs: seq<string>, io: string -> PostIo): (t': Tally)
    ensures t'.world.index == t.world.index && t'.world.markers == t.world.markers
    ensures t'.deleted == t.deleted
    decreases |slugs|
  {
    if |slugs| == 0 then t else DrainPosts(PostStep(t, slugs[0], io(slugs[0])), slugs[1..], io)
  }

  function DrainMarkers(t: Tally, names: seq<string>, io: string -> MarkerIo): (t': Tally)
    ensures t'.world.index == t.world.index && t'.world.posts == t.world.posts
    ensures t'.processed == t.processed
    decreases |names|
  {
    if |names| == 0 then t else DrainMarkers(MarkerStep(t, names[0], io(names[0])), names[1..], io)
  }

  /** The calls made before the loops: client creation, `mkdir`, and the two key scans. */
  datatype SetupIo = SetupIo(connect: Io, mkdir: Io, scan: Io)

  datatype Outcome =
    | NotConfigured
    | ConnectFailed
    | Aborted
    | Completed(processed: nat, deleted: nat, errors: seq<string>)

  /** `!process.env.KV_URL || !process.env.KV_REST_TOKEN`: both must be set and non-empty. */
  predicate Configured(env: map<string, string>) {
    "KV_URL" in env && env["KV_URL"] != "" && "KV_REST_TOKEN" in env && env["KV_REST_TOKEN"] != ""
  }

  /**
   * `generateContent()`. `postScan` and `markerScan` are what the two key
   * scans return (slugs and marker names, in scan order); `io` and
   * `markerIo` give the per-key outcomes.
   */
  function GenerateContent(w: World, env: map<string, string>, setup: SetupIo,
                           postScan: seq<string>, markerScan: seq<string>,
                           io: string -> PostIo, markerIo: string -> MarkerIo): (out: (World, Outcome))
    ensures out.0.index == w.index
    ensures !out.1.Completed? ==> out.0 == w
    ensures out.1.Completed? <==> Configured(env) && setup.connect.Done? && setup.mkdir.Done? && setup.scan.Done?
  {
    if !Configured(env) then (w, NotConfigured)
    else if setup.connect.Fail? then (w, ConnectFailed)
    else if setup.mkdir.Fail? || setup.scan.Fail? then (w, Aborted)
    else
      var t1 := DrainPosts(Tally(w, 0, 0, []), postScan, io);
      var t2 := DrainMarkers(t1, markerScan, markerIo);
      (t2.world, Completed(t2.processed, t2.deleted, t2.errors))
  }

  // -----------------------------------------------------------------------
  // Properties
  // -----------------------------------------------------------------------

  /** A failed key scan aborts the run before any post or marker is touched. */
  lemma ScanFailureAborts(w: World, env: map<string, string>, setup: SetupIo,
                          postScan: seq<string>, markerScan: seq<string>,
                          io: string -> PostIo, markerIo: string -> MarkerIo)
    requires Configured(env) && setup.connect.Done? && setup.scan.Fail?
    ensures GenerateContent(w, env, setup, postScan, markerScan, io, markerIo) == (w, Aborted)
  {
  }

  /** Without both connection settings nothing is touched. */
  lemma UnconfiguredIdle(w: World, env: map<string, string>, setup: SetupIo,
                         postScan: seq<string>, markerScan: seq<string>,
                         io: string -> PostIo, markerIo: string -> MarkerIo)
    requires !Configured(env)
    ensures GenerateContent(w, env, setup, postScan, markerScan, io, markerIo) == (w, NotConfigured)
  {
  }

  /** A post key whose value is empty is skipped, neither counted nor reported. */
  lemma PostSkipped(t: Tally, slug: string, io: PostIo)
    requires io.read.Done? && slug !in t.world.posts
    ensures PostStep(t, slug, io) == t
  {
  }

  /** A post that goes through is written under its own slug, its key deleted and counted. */
  lemma PostSucceeds(t: Tally, slug: string, io: PostIo)
    requires io.read.Done? && io.write.Done? && io.del.Done? && slug in t.world.posts
    ensures var t' := PostStep(t, slug, io);
      var post := t.world.posts[slug];
      && t'.world.files == t.world.files[ArticlePath(post.slug) := ToMarkdown(post)]
      && t'.world.posts == t.world.posts - {slug}
      && t'.processed == t.processed + 1 && t'.errors == t.errors
  {
  }

  /** A failing post call records one error and keeps the key. */
  lemma PostFails(t: Tally, slug: string, io: PostIo)
    requires io.read.Fail? || (slug in t.world.posts && (io.write.Fail? || io.del.Fail?))
    ensures var t' := PostStep(t, slug, io);
      && t'.world.posts == t.world.posts && t'.processed == t.processed
      && |t'.errors| == |t.errors| + 1
  {
  }

  /** A marker that is missing or has no slug is skipped and kept. */
  lemma MarkerSkipped(t: Tally, name: string, io: MarkerIo)
    requires io.read.Done?
    requires name !in t.world.markers || t.world.markers[name].slug.None? || t.world.markers[name].slug == Some("")
    ensures MarkerStep(t, name, io) == t
  {
  }

  /**
   * A marker whose file exists removes the file and counts it; a marker
   * whose file is absent counts nothing and reports nothing; in both cases
   * the marker is deleted.
   */
  lemma MarkerApplied(t: Tally, name: string, io: MarkerIo)
    requires io.read.Done? && io.access.Done? && io.unlink.Done? && io.del.Done?
    requires name in t.world.markers && t.world.markers[name].slug.Some?
    requires t.world.markers[name].slug.value != ""
    ensures var t' := MarkerStep(t, name, io);
      var path := ArticlePath(t.world.markers[name].slug.value);
      && path !in t'.world.files
      && name !in t'.world.markers
      && t'.errors == t.errors
      && t'.deleted == t.deleted + (if path in t.world.files then 1 else 0)
      && t'.world.files == t.world.files - {path}
  {
  }

  /** An access or unlink failure records an error and keeps the marker for the next run. */
  lemma MarkerKeptOnFileError(t: Tally, name: string, io: MarkerIo)
    requires io.read.Done? && name in t.world.markers && t.world.markers[name].slug.Some?
    requires t.world.markers[name].slug.value != ""
    requires io.access.Fail? || (ArticlePath(t.world.markers[name].slug.value) in t.world.files && io.unlink.Fail?)
    ensures var t' := MarkerStep(t, name, io);
      && name in t'.world.markers && t'.world.files == t.world.files
      && t'.deleted == t.deleted && |t'.errors| == |t.errors| + 1
  {
  }

  /**
   * With every call succeeding and the scan returning every post key, a
   * run leaves no draft behind, while the index is left exactly as it was:
   * every slug it listed is then stale.
   */
  lemma ScanDrainsAll(w: World, env: map<string, string>, setup: SetupIo,
                      postScan: seq<string>, markerScan: seq<string>,
                      io: string -> PostIo, markerIo: string -> MarkerIo)
    requires Configured(env) && setup.connect.Done? && setup.mkdir.Done? && setup.scan.Done?
    requires forall s :: s in w.posts ==> s in postScan
    requires forall s :: io(s).read.Done? && io(s).write.Done? && io(s).del.Done?
    ensures var (w', _) := GenerateContent(w, env, setup, postScan, markerScan, io, markerIo);
      && w'.posts == map[] && w'.index == w.index
  {
    DrainPostsClears(Tally(w, 0, 0, []), postScan, io);
  }

  /** With every post call succeeding, each scanned slug is gone after the loop. */
  lemma {:induction false} DrainPostsClears(t: Tally, slugs: seq<string>, io: string -> PostIo)
    requires forall s :: io(s).read.Done? && io(s).write.Done? && io(s).del.Done?
    ensures var t' := DrainPosts(t, slugs, io);
      && (forall s :: s in slugs ==> s !in t'.world.posts)
      && t'.world.posts.Keys <= t.world.posts.Keys
    decreases |slugs|
  {
    if |slugs| > 0 {
      var t1 := PostStep(t, slugs[0], io(slugs[0]));
      DrainPostsClears(t1, slugs[1..], io);
    }
  }

  /** Each scanned key adds at most one to `processed + |errors|` in the post loop. */
  lemma {:induction false} PostAccounting(t: Tally, slugs: seq<string>, io: string -> PostIo)
    ensures var t' := DrainPosts(t, slugs, io);
      t'.processed + |t'.errors| <= t.processed + |t.errors| + |slugs|
    decreases |slugs|
  {
    if |slugs| > 0 {
      PostAccounting(PostStep(t, slugs[0], io(slugs[0])), slugs[1..], io);
    }
  }
}
