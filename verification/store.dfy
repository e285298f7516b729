/**
 * The draft store of server/utils/tempPostManager.ts: records under
 * `temp-post:{slug}` and the slug index `temp-post-keys`, which is kept by
 * hand because the backend cannot list keys by prefix.
 *
 * Every call into the backend takes an `Io` outcome. A reading call that
 * fails is modelled where the source catches it; the operations are pure
 * transitions returning the new store and the result.
 */
module DraftStore {
  import opened Common
  import opened Text
  import opened Posts
  import opened Slug
  import opened Sorting

  /** `kv` maps a slug to the record under `temp-post:{slug}`; `index` is `temp-post-keys` (absent reads as `[]`). */
  datatype Store = Store(kv: map<string, TempPost>, index: seq<string>)

  /**
   * The invariant the index is meant to keep: it lists exactly the stored
   * slugs, each once, and each record sits under its own slug.
   */
  predicate Consistent(st: Store) {
    (forall s :: s in st.index ==> s in st.kv)
    && (forall s :: s in st.kv ==> s in st.index)
    && NoDup(st.index)
    && (forall s :: s in st.kv ==> st.kv[s].slug == s)
  }

  const Conflict: string := "A post with this title already exists"
  const NotFound: string := "Post not found"
  const CreatePrefix: string := "Failed to create post: "
  const UpdatePrefix: string := "Failed to update post: "

  /** `getTempPostBySlug`: a failed read is logged and reads as absent. */
  function GetBySlug(st: Store, slug: string, read: Io): (r: Option<TempPost>)
    ensures r.Some? <==> read.Done? && slug in st.kv
    ensures r.Some? ==> r.value == st.kv[slug]
  {
    if read.Fail? || slug !in st.kv then None else Some(st.kv[slug])
  }

  /** `keyIndex.includes(slug) ? keyIndex : [...keyIndex, slug]`. */
  function AddSlug(index: seq<string>, slug: string): (r: seq<string>)
    ensures slug in r
    ensures forall s :: s in r <==> s in index || s == slug
    ensures NoDup(index) ==> NoDup(r)
    ensures slug in index ==> r == index
    ensures slug !in index ==> r == index + [slug]
  {
    if slug in index then index else index + [slug]
  }

  /** `keyIndex.map(key => key === from ? to : key)`. */
  function RenameSlug(index: seq<string>, from: string, to: string): (r: seq<string>)
    ensures |r| == |index|
    ensures forall i :: 0 <= i < |index| ==> r[i] == (if index[i] == from then to else index[i])
  {
    seq(|index|, i requires 0 <= i < |index| => if index[i] == from then to else index[i])
  }

  /** `keyIndex.filter(key => key !== slug)`. */
  function RemoveSlug(index: seq<string>, slug: string): (r: seq<string>)
    ensures forall s :: s in r <==> s in index && s != slug
    ensures |r| <= |index|
    ensures Subsequence(r, index)
  {
    if |index| == 0 then []
    else if index[0] == slug then
      var rest := RemoveSlug(index[1..], slug);
      assert |rest| > 0 ==> rest[0] in rest;
      rest
    else [index[0]] + RemoveSlug(index[1..], slug)
  }

  /** Every other slug keeps its number of occurrences; `slug` has none left. */
  lemma {:induction false} RemoveSlugCounts(index: seq<string>, slug: string, s: string)
    ensures multiset(RemoveSlug(index, slug))[s] == (if s == slug then 0 else multiset(index)[s])
    decreases |index|
  {
    if |index| > 0 {
      RemoveSlugCounts(index[1..], slug, s);
      assert index == [index[0]] + index[1..];
    }
  }

  /** Removing a slug that is not listed leaves the index as it is. */
  lemma {:induction false} RemoveAbsent(index: seq<string>, slug: string)
    requires slug !in index
    ensures RemoveSlug(index, slug) == index
    decreases |index|
  {
    if |index| > 0 {
      RemoveAbsent(index[1..], slug);
      assert index == [index[0]] + index[1..];
    }
  }

  // -----------------------------------------------------------------------
  // createTempPost
  // -----------------------------------------------------------------------

  /** Outcomes of the calls `createTempPost` makes, in order. */
  datatype CreateIo = CreateIo(lookup: Io, write: Io, indexRead: Io, indexWrite: Io)

  predicate CreateAllDone(io: CreateIo) {
    io.lookup.Done? && io.write.Done? && io.indexRead.Done? && io.indexWrite.Done?
  }

  /** The record a successful create stores. `id` and `now` stand for `generatePostId()` and the current ISO time. */
  function NewPost(input: PostInput, id: string, now: string): TempPost {
    TempPost(id, GenerateSlug(input.title), input.title, input.description, input.content,
      input.publishedAt, input.tags, input.sendAsNewsletter, None, now, now, Draft)
  }

  /**
   * `createTempPost(input)`. The slug comes from the title; an occupied slug
   * is a conflict; the index is updated best-effort after the record is
   * written, and a failure there is swallowed.
   */
  function Create(st: Store, input: PostInput, id: string, now: string, io: CreateIo): (out: (Store, Result<TempPost>))
    ensures var slug := GenerateSlug(input.title);
      && (out.1.Ok? <==> !(io.lookup.Done? && slug in st.kv) && io.write.Done?)
      && (out.1.Err? ==> out.0 == st)
      && (out.1.Ok? ==> out.1.value == NewPost(input, id, now) && out.0.kv == st.kv[slug := out.1.value])
      && (out.1.Ok? && io.indexRead.Done? && io.indexWrite.Done? ==> out.0.index == AddSlug(st.index, slug))
    ensures io.indexRead.Fail? || io.indexWrite.Fail? ==> out.0.index == st.index
  {
    var slug := GenerateSlug(input.title);
    if GetBySlug(st, slug, io.lookup).Some? then
      (st, Err(CreatePrefix + Conflict))
    else if io.write.Fail? then
      (st, Err(CreatePrefix + Reason(io.write.message)))
    else
      var post := NewPost(input, id, now);
      var index :=
        if io.indexRead.Fail? || slug in st.index || io.indexWrite.Fail? then st.index
        else st.index + [slug];
      (Store(st.kv[slug := post], index), Ok(post))
  }

  /** Creating over an occupied slug reports the conflict and writes nothing. */
  lemma CreateConflict(st: Store, input: PostInput, id: string, now: string, io: CreateIo)
    requires io.lookup.Done? && GenerateSlug(input.title) in st.kv
    ensures Create(st, input, id, now, io).0 == st
    ensures Create(st, input, id, now, io).1.Err?
    ensures Contains(Create(st, input, id, now, io).1.message, Conflict)
  {
    ContainsMiddle(CreatePrefix, Conflict, "");
    assert CreatePrefix + Conflict + "" == CreatePrefix + Conflict;
  }

  /**
   * A successful create stores a fresh draft under its slug; with the index
   * calls succeeding, the slug is then listed exactly once.
   */
  lemma CreateSuccess(st: Store, input: PostInput, id: string, now: string, io: CreateIo)
    requires Consistent(st)
    requires Create(st, input, id, now, io).1.Ok?
    ensures var (st', r) := Create(st, input, id, now, io);
      && r.value.status == Draft && r.value.newsletterSentAt == None
      && r.value.createdAt == r.value.updatedAt == now
      && r.value.slug == GenerateSlug(input.title)
      && st'.kv[r.value.slug] == r.value
      && (io.indexRead.Done? && io.indexWrite.Done? ==>
            Consistent(st') && |set i | 0 <= i < |st'.index| && st'.index[i] == r.value.slug| == 1)
  {
    var (st', r) := Create(st, input, id, now, io);
    var slug := r.value.slug;
    if io.indexRead.Done? && io.indexWrite.Done? {
      assert st'.index == AddSlug(st.index, slug);
      OnlyOnce(st'.index, slug);
    }
  }

  /** In a sequence without repeats, a member occurs at exactly one position. */
  lemma OnlyOnce(s: seq<string>, x: string)
    requires NoDup(s) && x in s
    ensures |set i | 0 <= i < |s| && s[i] == x| == 1
  {
    var k :| 0 <= k < |s| && s[k] == x;
    assert (set i | 0 <= i < |s| && s[i] == x) == {k};
  }

  /**
   * A failed existence check reads as "absent", so create then overwrites
   * a record stored under the same slug.
   */
  lemma CreateOverwritesOnLookupFailure(st: Store, input: PostInput, id: string, now: string, io: CreateIo)
    requires io.lookup.Fail? && io.write.Done?
    requires GenerateSlug(input.title) in st.kv
    ensures Create(st, input, id, now, io).1.Ok?
    ensures Create(st, input, id, now, io).0.kv[GenerateSlug(input.title)] == NewPost(input, id, now)
  {
  }

  /** A failed index call leaves a newly stored slug out of the index. */
  lemma CreateIndexFailureStrands(st: Store, input: PostInput, id: string, now: string, io: CreateIo)
    requires Consistent(st)
    requires io.lookup.Done? && io.write.Done? && (io.indexRead.Fail? || io.indexWrite.Fail?)
    requires GenerateSlug(input.title) !in st.kv
    ensures GenerateSlug(input.title) in Create(st, input, id, now, io).0.kv
    ensures GenerateSlug(input.title) !in Create(st, input, id, now, io).0.index
    ensures !Consistent(Create(st, input, id, now, io).0)
  {
  }

  // -----------------------------------------------------------------------
  // updateTempPost
  // -----------------------------------------------------------------------

  /** Outcomes of the calls `updateTempPost` makes, in order; the rename calls are used only on a rename. */
  datatype UpdateIo = UpdateIo(lookup: Io, conflictLookup: Io, remove: Io, indexRead: Io, indexWrite: Io, write: Io)

  predicate UpdateAllDone(io: UpdateIo) {
    io.lookup.Done? && io.conflictLookup.Done? && io.remove.Done?
    && io.indexRead.Done? && io.indexWrite.Done? && io.write.Done?
  }

  /**
   * The slug the record ends up under: a non-empty title that differs from
   * the stored one is slugified; otherwise the slug is kept.
   */
  function TargetSlug(existing: TempPost, slug: string, patch: Patch): string {
    if patch.title.Some? && patch.title.value != "" && patch.title.value != existing.title
    then GenerateSlug(patch.title.value) else slug
  }

  /**
   * `updateTempPost(slug, patch)`. On a rename the new slug is checked for
   * a conflict, then the old key is removed and the index entry replaced in
   * place (best-effort); the merged record is written last.
   */
  function Update(st: Store, slug: string, patch: Patch, now: string, io: UpdateIo): (out: (Store, Result<TempPost>))
    ensures out.1.Ok? ==> io.lookup.Done? && slug in st.kv
    ensures out.1.Ok? ==> var target := TargetSlug(st.kv[slug], slug, patch);
      out.1.value == Merge(st.kv[slug], patch, target, now) && target in out.0.kv && out.0.kv[target] == out.1.value
    ensures io.indexRead.Fail? || io.indexWrite.Fail? ==> out.0.index == st.index
    ensures out.0.index != st.index ==>
      slug in st.kv && out.0.index == RenameSlug(st.index, slug, TargetSlug(st.kv[slug], slug, patch))
  {
    match GetBySlug(st, slug, io.lookup)
    case None => (st, Err(UpdatePrefix + NotFound))
    case Some(existing) =>
      var target := TargetSlug(existing, slug, patch);
      if target != slug && GetBySlug(st, target, io.conflictLookup).Some? then
        (st, Err(UpdatePrefix + Conflict))
      else if target != slug && io.remove.Fail? then
        (st, Err(UpdatePrefix + Reason(io.remove.message)))
      else
        var moved :=
          if target == slug then st
          else
            var index :=
              if io.indexRead.Fail? || io.indexWrite.Fail? then st.index
              else RenameSlug(st.index, slug, target);
            Store(st.kv - {slug}, index);
        if io.write.Fail? then
          (moved, Err(UpdatePrefix + Reason(io.write.message)))
        else
          var updated := Merge(existing, patch, target, now);
          (moved.(kv := moved.kv[target := updated]), Ok(updated))
  }

  /** A missing slug is reported as not found and changes nothing. */
  lemma UpdateNotFound(st: Store, slug: string, patch: Patch, now: string, io: UpdateIo)
    requires slug !in st.kv || io.lookup.Fail?
    ensures Update(st, slug, patch, now, io) == (st, Err(UpdatePrefix + NotFound))
  {
  }

  /** A rename onto an occupied slug is refused before any key is removed. */
  lemma UpdateConflict(st: Store, slug: string, patch: Patch, now: string, io: UpdateIo)
    requires io.lookup.Done? && slug in st.kv
    requires TargetSlug(st.kv[slug], slug, patch) != slug
    requires io.conflictLookup.Done? && TargetSlug(st.kv[slug], slug, patch) in st.kv
    ensures Update(st, slug, patch, now, io).0 == st
    ensures Update(st, slug, patch, now, io).1 == Err(UpdatePrefix + Conflict)
  {
  }

  /**
   * A rename moves the record: the old key is gone, the new key holds the
   * merged record under the new slug, every other record is untouched, and
   * the index entry is replaced at the same position.
   */
  lemma UpdateRename(st: Store, slug: string, patch: Patch, now: string, io: UpdateIo)
    requires UpdateAllDone(io) && slug in st.kv
    requires TargetSlug(st.kv[slug], slug, patch) != slug
    requires TargetSlug(st.kv[slug], slug, patch) !in st.kv
    ensures var target := TargetSlug(st.kv[slug], slug, patch);
      var (st', r) := Update(st, slug, patch, now, io);
      && r.Ok? && r.value.slug == target
      && slug !in st'.kv && st'.kv[target] == Merge(st.kv[slug], patch, target, now)
      && (forall s :: s != slug && s != target ==> (s in st'.kv <==> s in st.kv))
      && (forall s :: s != slug && s != target && s in st.kv ==> st'.kv[s] == st.kv[s])
      && |st'.index| == |st.index|
      && (forall i :: 0 <= i < |st.index| ==> st'.index[i] == (if st.index[i] == slug then target else st.index[i]))
  {
  }

  /** Without a slug change the record is rewritten under its own key and the index is left alone. */
  lemma UpdateInPlace(st: Store, slug: string, patch: Patch, now: string, io: UpdateIo)
    requires io.lookup.Done? && io.write.Done? && slug in st.kv
    requires TargetSlug(st.kv[slug], slug, patch) == slug
    ensures Update(st, slug, patch, now, io)
      == (st.(kv := st.kv[slug := Merge(st.kv[slug], patch, slug, now)]), Ok(Merge(st.kv[slug], patch, slug, now)))
  {
  }

  /** Publishing and unpublishing only change the status and the update time. */
  lemma StatusChangeKeepsSlug(st: Store, slug: string, status: Status, now: string, io: UpdateIo)
    requires io.lookup.Done? && io.write.Done? && slug in st.kv
    ensures var r := Update(st, slug, StatusPatch(status), now, io).1;
      r.Ok? && r.value == st.kv[slug].(slug := slug, status := status, updatedAt := now)
  {
  }

  /**
   * When the final write of a rename fails, the old key is already gone,
   * so the record is lost while the index may point at the new slug.
   */
  lemma UpdateWriteFailureLosesRecord(st: Store, slug: string, patch: Patch, now: string, io: UpdateIo)
    requires io.lookup.Done? && io.conflictLookup.Done? && io.remove.Done? && io.write.Fail?
    requires slug in st.kv
    requires TargetSlug(st.kv[slug], slug, patch) != slug
    requires TargetSlug(st.kv[slug], slug, patch) !in st.kv
    ensures var st' := Update(st, slug, patch, now, io).0;
      slug !in st'.kv && TargetSlug(st.kv[slug], slug, patch) !in st'.kv
    ensures Update(st, slug, patch, now, io).1.Err?
  {
  }

  /** With every call succeeding, update keeps the index in step with the records. */
  lemma UpdatePreservesConsistent(st: Store, slug: string, patch: Patch, now: string, io: UpdateIo)
    requires Consistent(st) && UpdateAllDone(io)
    ensures Consistent(Update(st, slug, patch, now, io).0)
  {
    var (st', r) := Update(st, slug, patch, now, io);
    if r.Ok? {
      var target := TargetSlug(st.kv[slug], slug, patch);
      if target != slug {
        RenameKeepsNoDup(st.index, slug, target);
        assert forall s :: s in st'.index <==> s in st'.kv by {
          forall s
            ensures s in st'.index <==> s in st'.kv
          {
            RenameMembers(st.index, slug, target, s);
          }
        }
      }
    }
  }

  lemma RenameMembers(index: seq<string>, from: string, to: string, s: string)
    requires from in index && from != to
    ensures s in RenameSlug(index, from, to) <==> (s in index && s != from) || s == to
  {
    var r := RenameSlug(index, from, to);
    if s in r {
      var i :| 0 <= i < |r| && r[i] == s;
    }
    if s in index && s != from {
      var i :| 0 <= i < |index| && index[i] == s;
      assert r[i] == s;
    }
    if s == to {
      var i :| 0 <= i < |index| && index[i] == from;
      assert r[i] == to;
    }
  }

  lemma RenameKeepsNoDup(index: seq<string>, from: string, to: string)
    requires NoDup(index) && to !in index
    ensures NoDup(RenameSlug(index, from, to))
  {
    var r := RenameSlug(index, from, to);
    forall i, j | 0 <= i < j < |r|
      ensures r[i] != r[j]
    {
      assert index[i] != index[j];
      assert index[i] != to && index[j] != to;
    }
  }

  // -----------------------------------------------------------------------
  // deleteTempPost
  // -----------------------------------------------------------------------

  /** Outcomes of the calls `deleteTempPost` makes, in order. */
  datatype DeleteIo = DeleteIo(lookup: Io, remove: Io, indexRead: Io, indexWrite: Io)

  /**
   * `deleteTempPost(slug)`: false when nothing is stored or the removal
   * fails, true once the record is removed; the index is filtered
   * best-effort and only written when it changes.
   */
  function Delete(st: Store, slug: string, io: DeleteIo): (out: (Store, bool))
    ensures out.1 <==> io.lookup.Done? && slug in st.kv && io.remove.Done?
    ensures !out.1 ==> out.0 == st
    ensures out.1 ==> out.0.kv == st.kv - {slug}
    ensures io.indexRead.Fail? || io.indexWrite.Fail? ==> out.0.index == st.index
    ensures out.1 && io.indexRead.Done? && io.indexWrite.Done? ==> out.0.index == RemoveSlug(st.index, slug)
    ensures Subsequence(out.0.index, st.index)
  {
    SubsequenceRefl(st.index);
    if GetBySlug(st, slug, io.lookup).None? || io.remove.Fail? then (st, false)
    else
      var filtered := RemoveSlug(st.index, slug);
      assert |filtered| == |st.index| ==> filtered == st.index by {
        if slug in st.index { FilterShrinks(st.index, slug); } else { RemoveAbsent(st.index, slug); }
      }
      var index :=
        if io.indexRead.Fail? || |filtered| == |st.index| || io.indexWrite.Fail? then st.index
        else filtered;
      (Store(st.kv - {slug}, index), true)
  }

  /** A removed slug is gone from both the records and the index, and the invariant holds after it. */
  lemma DeletePreservesConsistent(st: Store, slug: string, io: DeleteIo)
    requires Consistent(st)
    requires io.indexRead.Done? && io.indexWrite.Done?
    ensures Consistent(Delete(st, slug, io).0)
    ensures Delete(st, slug, io).1 ==> slug !in Delete(st, slug, io).0.index
  {
    var (st', ok) := Delete(st, slug, io);
    if ok {
      var filtered := RemoveSlug(st.index, slug);
      RemoveKeepsNoDup(st.index, slug);
      if |filtered| == |st.index| {
        FilterShrinks(st.index, slug);
      }
    }
  }

  lemma {:induction false} RemoveKeepsNoDup(index: seq<string>, slug: string)
    requires NoDup(index)
    ensures NoDup(RemoveSlug(index, slug))
    decreases |index|
  {
    if |index| > 0 {
      assert NoDup(index[1..]) by {
        forall i, j | 0 <= i < j < |index| - 1
          ensures index[1..][i] != index[1..][j]
        {
          assert index[i + 1] != index[j + 1];
        }
      }
      RemoveKeepsNoDup(index[1..], slug);
      assert index[0] !in index[1..] by {
        forall k | 0 <= k < |index| - 1
          ensures index[1..][k] != index[0]
        {
          assert index[0] != index[k + 1];
        }
      }
    }
  }

  /** Filtering out a member makes the index strictly shorter. */
  lemma {:induction false} FilterShrinks(index: seq<string>, slug: string)
    requires slug in index
    ensures |RemoveSlug(index, slug)| < |index|
    decreases |index|
  {
    if index[0] != slug {
      FilterShrinks(index[1..], slug);
    } else {
      RemoveShorter(index[1..], slug);
    }
  }

  lemma {:induction false} RemoveShorter(index: seq<string>, slug: string)
    ensures |RemoveSlug(index, slug)| <= |index|
    decreases |index|
  {
    if |index| > 0 {
      RemoveShorter(index[1..], slug);
    }
  }

  // -----------------------------------------------------------------------
  // getAllTempPosts
  // -----------------------------------------------------------------------

  /**
   * Outcomes of the calls `getAllTempPosts` makes: the index read, the
   * slugs whose record read throws, and the index rewrite.
   */
  datatype ListIo = ListIo(indexRead: Io, readFails: set<string>, indexWrite: Io)

  /** The index slugs whose record could be read, in index order. */
  function Resolved(kv: map<string, TempPost>, slugs: seq<string>, readFails: set<string>): (r: seq<string>)
    ensures forall s :: s in r <==> s in slugs && s in kv && s !in readFails
    ensures |r| <= |slugs|
    ensures Subsequence(r, slugs)
  {
    if |slugs| == 0 then []
    else
      var rest := Resolved(kv, slugs[1..], readFails);
      if slugs[0] in kv && slugs[0] !in readFails then [slugs[0]] + rest
      else assert |rest| > 0 ==> rest[0] in rest; rest
  }

  function Records(kv: map<string, TempPost>, slugs: seq<string>): (r: seq<TempPost>)
    requires forall s :: s in slugs ==> s in kv
    ensures |r| == |slugs|
    ensures forall i :: 0 <= i < |slugs| ==> r[i] == kv[slugs[i]]
  {
    seq(|slugs|, i requires 0 <= i < |slugs| => kv[slugs[i]])
  }

  /**
   * `getAllTempPosts()`: the records of the index slugs that resolve,
   * newest `createdAt` first (`time` stands for `new Date(_).getTime()`).
   * When some slug does not resolve the index is rewritten to the ones that
   * did, in their original order. Nothing is thrown: a failed index read
   * lists nothing.
   */
  function GetAll(st: Store, io: ListIo, time: string -> int): (out: (Store, seq<TempPost>))
    ensures out.0.kv == st.kv
    ensures |out.1| <= |st.index|
    ensures io.indexRead.Done? && io.indexWrite.Done?
            && |Resolved(st.kv, st.index, io.readFails)| != |st.index|
            ==> out.0.index == Resolved(st.kv, st.index, io.readFails)
    ensures io.indexRead.Fail? || io.indexWrite.Fail? ==> out.0.index == st.index
  {
    var slugs := if io.indexRead.Fail? then [] else st.index;
    var valid := Resolved(st.kv, slugs, io.readFails);
    var posts := SortDesc(Records(st.kv, valid), (p: TempPost) => time(p.createdAt));
    var index := if |valid| != |slugs| && io.indexWrite.Done? then valid else st.index;
    (st.(index := index), posts)
  }

  /**
   * The listing holds exactly the records of the index slugs that resolve,
   * each as often as its slug is listed, newest first.
   */
  lemma GetAllContents(st: Store, io: ListIo, time: string -> int)
    requires io.indexRead.Done?
    ensures var posts := GetAll(st, io, time).1;
      && SortedDesc(posts, (p: TempPost) => time(p.createdAt))
      && multiset(posts) == multiset(Records(st.kv, Resolved(st.kv, st.index, io.readFails)))
  {
    var valid := Resolved(st.kv, st.index, io.readFails);
    SortDescCorrect(Records(st.kv, valid), (p: TempPost) => time(p.createdAt));
  }

  /**
   * The listing repairs the index: after it, every listed slug has a
   * record (given the per-record reads succeed and the rewrite goes
   * through), and a consistent store is left as it was.
   */
  lemma GetAllRepairs(st: Store, io: ListIo, time: string -> int)
    requires io.indexRead.Done? && io.indexWrite.Done? && io.readFails == {}
    ensures GetAll(st, io, time).0.index == Resolved(st.kv, st.index, {})
    ensures forall s :: s in GetAll(st, io, time).0.index ==> s in st.kv
    ensures Consistent(st) ==> GetAll(st, io, time).0 == st
  {
    var valid := Resolved(st.kv, st.index, {});
    if |valid| == |st.index| {
      AllResolved(st.kv, st.index);
      ResolvedAll(st.kv, st.index);
    }
    if Consistent(st) {
      ResolvedAll(st.kv, st.index);
    }
  }

  /** If no slug was dropped, every slug resolved. */
  lemma {:induction false} AllResolved(kv: map<string, TempPost>, slugs: seq<string>)
    requires |Resolved(kv, slugs, {})| == |slugs|
    ensures forall s :: s in slugs ==> s in kv
    decreases |slugs|
  {
    if |slugs| > 0 {
      var rest := Resolved(kv, slugs[1..], {});
      if slugs[0] !in kv {
        assert false;
      } else {
        AllResolved(kv, slugs[1..]);
      }
    }
  }

  /** When every slug is stored, nothing is dropped. */
  lemma {:induction false} ResolvedAll(kv: map<string, TempPost>, slugs: seq<string>)
    requires forall s :: s in slugs ==> s in kv
    ensures Resolved(kv, slugs, {}) == slugs
    decreases |slugs|
  {
    if |slugs| > 0 {
      ResolvedAll(kv, slugs[1..]);
      assert slugs == [slugs[0]] + slugs[1..];
    }
  }

  /**
   * A record whose read throws is dropped from the index even though it is
   * still stored, leaving the store inconsistent.
   */
  lemma GetAllDropsUnreadable(st: Store, io: ListIo, time: string -> int, slug: string)
    requires Consistent(st) && io.indexRead.Done? && io.indexWrite.Done?
    requires slug in st.kv && slug in io.readFails
    ensures slug in GetAll(st, io, time).0.kv
    ensures slug !in GetAll(st, io, time).0.index
    ensures !Consistent(GetAll(st, io, time).0)
  {
    var valid := Resolved(st.kv, st.index, io.readFails);
    assert slug in st.index && slug !in valid;
    if |valid| == |st.index| {
      ResolvedSubseq(st.kv, st.index, io.readFails, slug);
    }
  }

  /** Dropping a listed slug makes the resolved list strictly shorter. */
  lemma {:induction false} ResolvedSubseq(kv: map<string, TempPost>, slugs: seq<string>, readFails: set<string>, slug: string)
    requires slug in slugs && slug !in Resolved(kv, slugs, readFails)
    ensures |Resolved(kv, slugs, readFails)| < |slugs|
    decreases |slugs|
  {
    if slugs[0] == slug {
      assert |Resolved(kv, slugs[1..], readFails)| <= |slugs| - 1;
    } else {
      ResolvedSubseq(kv, slugs[1..], readFails, slug);
    }
  }

  /**
   * The listing never adds to the index or reorders it: the index after it
   * is the index before it with some slugs left out.
   */
  lemma GetAllKeepsOrder(st: Store, io: ListIo, time: string -> int)
    ensures Subsequence(GetAll(st, io, time).0.index, st.index)
  {
    var valid := Resolved(st.kv, st.index, io.readFails);
    if GetAll(st, io, time).0.index == st.index {
      SubsequenceRefl(st.index);
    }
  }

  /** A failed index read lists nothing and writes nothing. */
  lemma GetAllIndexFailure(st: Store, io: ListIo, time: string -> int)
    requires io.indexRead.Fail?
    ensures GetAll(st, io, time) == (st, [])
  {
  }
}
