/**
 * The index-driven materialisation handler,
 * server/api/build/generate-content.ts: every slug of `temp-post-keys` is
 * turned into `content/articles/{post.slug}.md` and its record removed;
 * the index is then rewritten to the slugs that occur inside some error
 * message, which is meant to be the slugs that failed.
 */
module BuildEndpoint {
  import opened Common
  import opened Text
  import opened Posts
  import opened Markdown
  import opened DraftStore

  /** Outcomes of the three calls made for one index slug: the record read, the file write, the record removal. */
  datatype ItemIo = ItemIo(read: Io, write: Io, remove: Io)

  /** The state a run threads through the loop. */
  datatype Run = Run(
    kv: map<string, TempPost>,
    files: map<string, string>,
    processed: nat,
    errors: seq<string>,
    failed: seq<string>)

  /** The error recorded for a slug; the message is `error.message` as thrown. */
  function ProcessError(slug: string, message: string): string {
    "Failed to process " + slug + ": " + message
  }

  /**
   * One pass of the loop body. A missing record is skipped; any failing call
   * records an error and leaves the key in place (a file already written
   * stays written); otherwise the file is written, the key removed and the
   * slug counted.
   */
  function Step(r: Run, slug: string, io: ItemIo): (r': Run)
    ensures r'.processed + |r'.errors| <= r.processed + |r.errors| + 1
    ensures r'.processed >= r.processed && |r'.errors| >= |r.errors|
    ensures r'.kv.Keys <= r.kv.Keys
    ensures forall s :: s in r'.kv ==> r'.kv[s] == r.kv[s]
  {
    if io.read.Fail? then
      r.(errors := r.errors + [ProcessError(slug, io.read.message)], failed := r.failed + [slug])
    else if slug !in r.kv then r
    else
      var post := r.kv[slug];
      if io.write.Fail? then
        r.(errors := r.errors + [ProcessError(slug, io.write.message)], failed := r.failed + [slug])
      else
        var files := r.files[ArticlePath(post.slug) := ToMarkdown(post)];
        if io.remove.Fail? then
          r.(files := files, errors := r.errors + [ProcessError(slug, io.remove.message)], failed := r.failed + [slug])
        else
          r.(kv := r.kv - {slug}, files := files, processed := r.processed + 1)
  }

  /** The message of the first call that failed for one slug. */
  function FailureMessage(io: ItemIo): string {
    if io.read.Fail? then io.read.message
    else if io.write.Fail? then io.write.message
    else if io.remove.Fail? then io.remove.message
    else ""
  }

  /** The loop over the index, in order. */
  function Drain(r: Run, slugs: seq<string>, io: string -> ItemIo): Run
    decreases |slugs|
  {
    if |slugs| == 0 then r else Drain(Step(r, slugs[0], io(slugs[0])), slugs[1..], io)
  }

  /**
   * The index after a run, as written: every slug that occurs anywhere in
   * some error string is kept.
   */
  function RetainAsWritten(slugs: seq<string>, errors: seq<string>): (r: seq<string>)
    ensures forall s :: s in r <==> s in slugs && exists e :: e in errors && Contains(e, s)
    ensures |r| <= |slugs|
    ensures Subsequence(r, slugs)
  {
    if |slugs| == 0 then []
    else
      var rest := RetainAsWritten(slugs[1..], errors);
      if exists e :: e in errors && Contains(e, slugs[0]) then [slugs[0]] + rest
      else assert |rest| > 0 ==> rest[0] in rest; rest
  }

  /** A kept slug keeps all its repeats; a dropped one has none left. */
  lemma {:induction false} RetainAsWrittenCounts(slugs: seq<string>, errors: seq<string>, s: string)
    ensures multiset(RetainAsWritten(slugs, errors))[s]
      == (if exists e :: e in errors && Contains(e, s) then multiset(slugs)[s] else 0)
    decreases |slugs|
  {
    if |slugs| > 0 {
      RetainAsWrittenCounts(slugs[1..], errors, s);
      assert slugs == [slugs[0]] + slugs[1..];
    }
  }

  /** The index after a run, as the source comment describes it: the slugs that failed to process. */
  function RetainFailed(slugs: seq<string>, failed: seq<string>): (r: seq<string>)
    ensures forall s :: s in r <==> s in slugs && s in failed
    ensures |r| <= |slugs|
    ensures Subsequence(r, slugs)
  {
    if |slugs| == 0 then []
    else
      var rest := RetainFailed(slugs[1..], failed);
      if slugs[0] in failed then [slugs[0]] + rest
      else assert |rest| > 0 ==> rest[0] in rest; rest
  }

  /** A failed slug keeps all its repeats; any other has none left. */
  lemma {:induction false} RetainFailedCounts(slugs: seq<string>, failed: seq<string>, s: string)
    ensures multiset(RetainFailed(slugs, failed))[s] == (if s in failed then multiset(slugs)[s] else 0)
    decreases |slugs|
  {
    if |slugs| > 0 {
      RetainFailedCounts(slugs[1..], failed, s);
      assert slugs == [slugs[0]] + slugs[1..];
    }
  }

  datatype Response =
    | Built(processed: nat, deleted: nat, errors: seq<string>)
    | ServerError(status: int, message: string)

  /** Which index rewrite a run uses: the substring rule as written, or the failed slugs. */
  datatype Retention = AsWritten | FailedOnly

  /**
   * The handler. A failed index read is a 500; otherwise the loop runs, the
   * deletion list is empty (so `deleted` is 0), and the index is rewritten
   * only when something was processed, a failure of that write being
   * swallowed.
   */
  function Generate(st: Store, files: map<string, string>, indexRead: Io, io: string -> ItemIo,
                    indexWrite: Io, retention: Retention): (out: (Store, map<string, string>, Response))
    ensures indexRead.Fail? <==> out.2.ServerError?
    ensures out.2.ServerError? ==> out.0 == st && out.1 == files && out.2.status == 500
    ensures out.2.Built? ==> out.2.deleted == 0 && out.2.processed + |out.2.errors| <= |st.index|
    ensures out.2.Built? && out.2.processed == 0 ==> out.0.index == st.index
    ensures indexWrite.Fail? ==> out.0.index == st.index
    ensures forall s :: s in out.0.index ==> s in st.index
    ensures out.2.Built? && out.2.processed > 0 && indexWrite.Done? && retention.AsWritten? ==>
      forall s :: s in out.0.index <==> s in st.index && exists e :: e in out.2.errors && Contains(e, s)
    ensures out.2.Built? && out.2.processed > 0 && indexWrite.Done? && retention.AsWritten? ==>
      out.0.index == RetainAsWritten(st.index, out.2.errors)
    ensures Subsequence(out.0.index, st.index)
  {
    SubsequenceRefl(st.index);
    if indexRead.Fail? then
      (st, files, ServerError(500, "Failed to generate content: Failed to access KV storage: " + Reason(indexRead.message)))
    else
      var r := Drain(Run(st.kv, files, 0, [], []), st.index, io);
      DrainCounts(Run(st.kv, files, 0, [], []), st.index, io);
      var index :=
        if r.processed > 0 && indexWrite.Done? then
          (match retention
           case AsWritten => RetainAsWritten(st.index, r.errors)
           case FailedOnly => RetainFailed(st.index, r.failed))
        else st.index;
      (Store(r.kv, index), r.files, Built(r.processed, 0, r.errors))
  }

  // -----------------------------------------------------------------------
  // Accounting
  // -----------------------------------------------------------------------

  /** Each slug adds at most one to `processed + |errors|`; errors and failed slugs grow together. */
  lemma {:induction false} DrainCounts(r: Run, slugs: seq<string>, io: string -> ItemIo)
    requires |r.errors| == |r.failed|
    ensures var r' := Drain(r, slugs, io);
      && r'.processed + |r'.errors| <= r.processed + |r.errors| + |slugs|
      && |r'.errors| == |r'.failed|
      && r'.processed >= r.processed
    decreases |slugs|
  {
    if |slugs| > 0 {
      DrainCounts(Step(r, slugs[0], io(slugs[0])), slugs[1..], io);
    }
  }

  /** A slug whose record is missing is neither counted nor reported. */
  lemma StepSkips(r: Run, slug: string, io: ItemIo)
    requires io.read.Done? && slug !in r.kv
    ensures Step(r, slug, io) == r
  {
  }

  /** A slug that goes through writes the file of its record, loses its key and is counted. */
  lemma StepSucceeds(r: Run, slug: string, io: ItemIo)
    requires io.read.Done? && io.write.Done? && io.remove.Done? && slug in r.kv
    ensures var r' := Step(r, slug, io);
      && r'.files == r.files[ArticlePath(r.kv[slug].slug) := ToMarkdown(r.kv[slug])]
      && r'.kv == r.kv - {slug}
      && r'.processed == r.processed + 1 && r'.errors == r.errors
  {
  }

  /**
   * A failed read, write or removal records one error naming the slug and
   * keeps the key; when only the removal failed, the file stays written.
   */
  lemma StepFails(r: Run, slug: string, io: ItemIo)
    requires io.read.Fail? || (slug in r.kv && (io.write.Fail? || io.remove.Fail?))
    ensures var r' := Step(r, slug, io);
      && r'.kv == r.kv && r'.processed == r.processed
      && r'.errors == r.errors + [ProcessError(slug, FailureMessage(io))]
      && r'.failed == r.failed + [slug]
      && r'.files == (if io.read.Done? && io.write.Done? then r.files[ArticlePath(r.kv[slug].slug) := ToMarkdown(r.kv[slug])]
                      else r.files)
  {
  }

  /** Keys outside the index are never touched. */
  lemma {:induction false} DrainFrame(r: Run, slugs: seq<string>, io: string -> ItemIo, s: string)
    requires s in r.kv && s !in slugs
    ensures s in Drain(r, slugs, io).kv && Drain(r, slugs, io).kv[s] == r.kv[s]
    decreases |slugs|
  {
    if |slugs| > 0 {
      DrainFrame(Step(r, slugs[0], io(slugs[0])), slugs[1..], io, s);
    }
  }

  /** After a run without errors, no slug of the index has a record left. */
  lemma {:induction false} DrainClears(r: Run, slugs: seq<string>, io: string -> ItemIo)
    requires |Drain(r, slugs, io).errors| == |r.errors|
    ensures forall s :: s in slugs ==> s !in Drain(r, slugs, io).kv
    decreases |slugs|
  {
    if |slugs| > 0 {
      var r1 := Step(r, slugs[0], io(slugs[0]));
      DrainGrows(r1, slugs[1..], io);
      DrainClears(r1, slugs[1..], io);
      DrainKeys(r1, slugs[1..], io);
    }
  }

  lemma {:induction false} DrainGrows(r: Run, slugs: seq<string>, io: string -> ItemIo)
    ensures |Drain(r, slugs, io).errors| >= |r.errors|
    decreases |slugs|
  {
    if |slugs| > 0 {
      DrainGrows(Step(r, slugs[0], io(slugs[0])), slugs[1..], io);
    }
  }

  lemma {:induction false} DrainKeys(r: Run, slugs: seq<string>, io: string -> ItemIo)
    ensures Drain(r, slugs, io).kv.Keys <= r.kv.Keys
    decreases |slugs|
  {
    if |slugs| > 0 {
      DrainKeys(Step(r, slugs[0], io(slugs[0])), slugs[1..], io);
    }
  }

  /** With no index slug holding a record, the loop changes nothing and counts nothing. */
  lemma {:induction false} DrainIdle(r: Run, slugs: seq<string>, io: string -> ItemIo)
    requires forall s :: s in slugs ==> s !in r.kv
    ensures var r' := Drain(r, slugs, io);
      r'.kv == r.kv && r'.files == r.files && r'.processed == r.processed
    decreases |slugs|
  {
    if |slugs| > 0 {
      DrainIdle(Step(r, slugs[0], io(slugs[0])), slugs[1..], io);
    }
  }

  // -----------------------------------------------------------------------
  // Index rewrite and reruns
  // -----------------------------------------------------------------------

  /** When every item succeeds the index becomes empty, under either rule. */
  lemma {:induction false} RetainNothing(slugs: seq<string>)
    ensures RetainAsWritten(slugs, []) == [] && RetainFailed(slugs, []) == []
    decreases |slugs|
  {
    if |slugs| > 0 {
      RetainNothing(slugs[1..]);
    }
  }

  /** A run that processed something without a single error leaves the index empty, under either rule. */
  lemma CleanRunEmptiesIndex(st: Store, files: map<string, string>, io: string -> ItemIo, retention: Retention)
    ensures var (st', _, res) := Generate(st, files, Done, io, Done, retention);
      res.processed > 0 && res.errors == [] ==> st'.index == []
  {
    var r := Drain(Run(st.kv, files, 0, [], []), st.index, io);
    DrainCounts(Run(st.kv, files, 0, [], []), st.index, io);
    if r.errors == [] {
      RetainNothing(st.index);
    }
  }

  /** An empty index gives zero counts, no errors and no writes. */
  lemma EmptyIndex(st: Store, files: map<string, string>, io: string -> ItemIo, indexWrite: Io, retention: Retention)
    requires st.index == []
    ensures Generate(st, files, Done, io, indexWrite, retention) == (st, files, Built(0, 0, []))
  {
  }

  /**
   * A rerun after a run without errors changes nothing: no slug left in
   * the index still has a record, so the loop only skips (or reports
   * failed reads) and processes nothing.
   */
  lemma RerunChangesNothing(st: Store, files: map<string, string>, io: string -> ItemIo, indexWrite: Io,
                            io2: string -> ItemIo, indexWrite2: Io, retention: Retention)
    requires Generate(st, files, Done, io, indexWrite, retention).2 == Built(Generate(st, files, Done, io, indexWrite, retention).2.processed, 0, [])
    ensures var (st1, files1, _) := Generate(st, files, Done, io, indexWrite, retention);
      var (st2, files2, res2) := Generate(st1, files1, Done, io2, indexWrite2, retention);
      st2 == st1 && files2 == files1 && res2.processed == 0
  {
    var start := Run(st.kv, files, 0, [], []);
    var r := Drain(start, st.index, io);
    DrainClears(start, st.index, io);
    var (st1, files1, _) := Generate(st, files, Done, io, indexWrite, retention);
    if r.processed > 0 && indexWrite.Done? {
      RetainNothing(st.index);
    }
    assert forall s :: s in st1.index ==> s !in st1.kv;
    DrainIdle(Run(st1.kv, files1, 0, [], []), st1.index, io2);
  }

  // -----------------------------------------------------------------------
  // The substring rule
  // -----------------------------------------------------------------------

  /** Two drafts "a" and "ab", both indexed. */
  function PairStore(post: TempPost, other: TempPost): Store {
    Store(map["a" := post, "ab" := other], ["a", "ab"])
  }

  /** Every call succeeds except the file write for "ab". */
  function PairIo(s: string): ItemIo {
    if s == "ab" then ItemIo(Done, Fail("disk full"), Done) else ItemIo(Done, Done, Done)
  }

  /** The loop over the pair processes "a" and records the failure of "ab". */
  lemma PairDrain(post: TempPost, other: TempPost, files: map<string, string>)
    ensures var r := Drain(Run(PairStore(post, other).kv, files, 0, [], []), ["a", "ab"], PairIo);
      && r.processed == 1 && r.errors == [ProcessError("ab", "disk full")] && r.failed == ["ab"]
      && r.kv == map["ab" := other]
  {
    var index: seq<string> := ["a", "ab"];
    var start := Run(PairStore(post, other).kv, files, 0, [], []);
    var r1 := Step(start, "a", PairIo("a"));
    assert r1.kv == map["ab" := other];
    assert index[1..] == ["ab"] && index[1..][1..] == [];
    assert Drain(start, index, PairIo) == Step(r1, "ab", PairIo("ab"));
  }

  /**
   * The substring rule keeps a slug that was processed when it occurs
   * inside another slug's error: with index `["a", "ab"]`, where "ab" fails
   * to write, the index still lists "a" though its record is gone.
   */
  lemma SubstringRetentionKeepsProcessed(post: TempPost, other: TempPost, files: map<string, string>)
    ensures var (st', _, res) := Generate(PairStore(post, other), files, Done, PairIo, Done, AsWritten);
      && res == Built(1, 0, [ProcessError("ab", "disk full")])
      && "a" in st'.index && "a" !in st'.kv
  {
    PairDrain(post, other, files);
    var index: seq<string> := ["a", "ab"];
    var errors := [ProcessError("ab", "disk full")];
    ErrorMentionsShorterSlug();
    assert "a" in index && errors[0] in errors;
    assert "a" in RetainAsWritten(index, errors);
  }

  /** The error reported for "ab" contains the slug "a". */
  lemma ErrorMentionsShorterSlug()
    ensures Contains(ProcessError("ab", "disk full"), "a")
  {
    assert ProcessError("ab", "disk full") == "Failed to process " + "a" + "b: disk full";
    ContainsMiddle("Failed to process ", "a", "b: disk full");
  }

  /** Under the failed-slugs rule the index keeps exactly the slugs that failed, in index order. */
  lemma FailedOnlyRetainsFailures(st: Store, files: map<string, string>, io: string -> ItemIo)
    ensures var (st', _, res) := Generate(st, files, Done, io, Done, FailedOnly);
      var r := Drain(Run(st.kv, files, 0, [], []), st.index, io);
      res.processed > 0 ==>
        && (forall s :: s in st'.index <==> s in st.index && s in r.failed)
        && st'.index == RetainFailed(st.index, r.failed)
  {
  }

  /** The same run under the failed-slugs rule keeps only "ab", whose record is still stored. */
  lemma FailedOnlyScenario(post: TempPost, other: TempPost, files: map<string, string>)
    ensures var (st', _, res) := Generate(PairStore(post, other), files, Done, PairIo, Done, FailedOnly);
      && res == Built(1, 0, [ProcessError("ab", "disk full")])
      && st'.index == ["ab"] && "ab" in st'.kv
  {
    PairDrain(post, other, files);
    var index: seq<string> := ["a", "ab"];
    assert index[1..] == ["ab"] && index[1..][1..] == [];
    assert RetainFailed(index, ["ab"]) == ["ab"];
  }

  /**
   * Under the failed-slugs rule, with an index without repeats and every
   * record read, each slug the rewritten index keeps still has its record.
   */
  lemma FailedOnlyIndexHasRecords(st: Store, files: map<string, string>, io: string -> ItemIo)
    requires NoDup(st.index)
    requires forall s :: io(s).read.Done?
    ensures var (st', _, res) := Generate(st, files, Done, io, Done, FailedOnly);
      res.processed > 0 ==> forall s :: s in st'.index ==> s in st'.kv
  {
    DrainFailedKept(Run(st.kv, files, 0, [], []), st.index, io);
  }

  /** A slug that failed keeps its key for the rest of the run. */
  lemma {:induction false} DrainFailedKept(r: Run, slugs: seq<string>, io: string -> ItemIo)
    requires NoDup(slugs)
    requires forall s :: s in r.failed ==> s in r.kv && s !in slugs
    requires forall s :: io(s).read.Done?
    ensures forall s :: s in Drain(r, slugs, io).failed ==> s in Drain(r, slugs, io).kv
    decreases |slugs|
  {
    if |slugs| > 0 {
      var r1 := Step(r, slugs[0], io(slugs[0]));
      assert NoDup(slugs[1..]) by {
        forall i, j | 0 <= i < j < |slugs| - 1
          ensures slugs[1..][i] != slugs[1..][j]
        {
          assert slugs[i + 1] != slugs[j + 1];
        }
      }
      assert slugs[0] !in slugs[1..] by {
        forall k | 0 <= k < |slugs| - 1
          ensures slugs[1..][k] != slugs[0]
        {
          assert slugs[0] != slugs[k + 1];
        }
      }
      DrainFailedKept(r1, slugs[1..], io);
    }
  }
}
