/**
 * The three search functions of desk.py and `ImageSearchThread.run`, which picks
 * one of them. The worker pool is modelled sequentially: every submitted task's
 * result is computed, then `as_completed` hands them back in an arbitrary order.
 */
module Search {
  import opened Wrappers
  import opened Enumeration
  import opened Chunks
  import opened Scoring
  import opened Ranking

  /** `batch_size=10`, the only value the callers use. */
  const BatchSize: nat := 10

  /**
   * What a search thread ends with: the list it emits through `results_ready`, or an
   * exception that escapes `run`, in which case nothing is emitted.
   */
  datatype Outcome = Done(results: seq<Entry>) | Raised

  /** `r` is some descending order of exactly the entries `entries`. */
  predicate IsRankingOf(r: seq<Entry>, entries: seq<Entry>)
  {
    SortedDesc(r) && multiset(r) == multiset(entries)
  }

  /** Removing position `k > 0` keeps the head and removes position `k - 1` of the tail. */
  lemma RemoveAtCons<T>(s: seq<T>, k: nat)
    requires 0 < k < |s|
    ensures s[..k] + s[k + 1..] == [s[0]] + (s[1..][..k - 1] + s[1..][k..])
  {
    assert s[..k] == [s[0]] + s[1..][..k - 1];
    assert s[k + 1..] == s[1..][k..];
  }

  lemma {:induction false} FlattenRemove(s: seq<seq<Entry>>, k: nat)
    requires k < |s|
    ensures multiset(Flatten(s)) == multiset(s[k]) + multiset(Flatten(s[..k] + s[k + 1..]))
  {
    if k == 0 {
      assert s[..0] + s[1..] == s[1..];
    } else {
      var tail := s[1..];
      FlattenRemove(tail, k - 1);
      var rest := tail[..k - 1] + tail[k..];
      RemoveAtCons(s, k);
      assert ([s[0]] + rest)[1..] == rest;
      assert Flatten(s[..k] + s[k + 1..]) == s[0] + Flatten(rest);
    }
  }

  lemma SuccessesCons(x: Option<Entry>, rest: seq<Option<Entry>>)
    ensures Successes([x] + rest) == Pairs(x) + Successes(rest)
  {
    assert ([x] + rest)[1..] == rest;
  }

  lemma {:induction false} SuccessesRemove(s: seq<Option<Entry>>, k: nat)
    requires k < |s|
    ensures multiset(Successes(s)) == multiset(Pairs(s[k])) + multiset(Successes(s[..k] + s[k + 1..]))
  {
    if k == 0 {
      assert s[..0] + s[1..] == s[1..];
    } else {
      var tail := s[1..];
      SuccessesRemove(tail, k - 1);
      RemoveAtCons(s, k);
      SuccessesCons(s[0], tail[..k - 1] + tail[k..]);
      assert Successes(s) == Pairs(s[0]) + Successes(tail);
    }
  }

  /**
   * The `as_completed` loop of the text search: whichever batch finishes next is
   * appended whole (`results.extend`); the result holds every batch's entries.
   */
  method MergeBatchResults(futures: seq<seq<Entry>>) returns (results: seq<Entry>)
    ensures multiset(results) == multiset(Flatten(futures))
  {
    results := [];
    var pending := futures;
    while pending != []
      invariant multiset(results) + multiset(Flatten(pending)) == multiset(Flatten(futures))
      decreases |pending|
    {
      var k :| 0 <= k < |pending|;
      var batchResults := pending[k];
      FlattenRemove(pending, k);
      pending := pending[..k] + pending[k + 1..];
      if batchResults != [] {
        results := results + batchResults;
      }
    }
  }

  /**
   * The `as_completed` loop of the image and combined searches: whichever file finishes
   * next is appended when it produced a pair (`if result: results.append(result)`).
   */
  method MergeFileResults(futures: seq<Option<Entry>>) returns (results: seq<Entry>)
    ensures multiset(results) == multiset(Successes(futures))
  {
    results := [];
    var pending := futures;
    while pending != []
      invariant multiset(results) + multiset(Successes(pending)) == multiset(Successes(futures))
      decreases |pending|
    {
      var k :| 0 <= k < |pending|;
      var result := pending[k];
      SuccessesRemove(pending, k);
      pending := pending[..k] + pending[k + 1..];
      if result.Some? {
        results := results + [result.value];
      }
    }
  }

  /** Scoring every batch separately loses and adds nothing. */
  lemma {:induction false} FlattenScoreAll(scorer: Scorer, batches: seq<seq<string>>, futures: seq<seq<Entry>>)
    requires |futures| == |batches|
    requires forall k :: 0 <= k < |batches| ==> futures[k] == ScoreAll(scorer, batches[k])
    ensures Flatten(futures) == ScoreAll(scorer, Flatten(batches))
  {
    if batches != [] {
      FlattenScoreAll(scorer, batches[1..], futures[1..]);
      ScoreAllAppend(scorer, batches[0], Flatten(batches[1..]));
    }
  }

  /**
   * What a search promises once its query is embedded: the folder scan raises when
   * a directory cannot be listed; otherwise the result ranks the successful pairs
   * of all candidates.
   */
  predicate ScannedAndRanked(scorer: Scorer, fs: FileSystem, folders: seq<string>, out: Outcome)
  {
    match Scan(fs, folders)
    case None => out == Raised
    case Some(paths) => out.Done? && IsRankingOf(out.results, ScoreAll(scorer, paths))
  }

  /** What `search_images_by_description` promises. */
  predicate DescriptionSearchSpec<E>(p: Provider<E>, fs: FileSystem, description: string, folders: seq<string>, out: Outcome)
  {
    if !p.tokenizes(description) then out == Raised
    else
      match p.encodeText(description)
      case None => out == Done([])
      case Some(d) => ScannedAndRanked(TextScorer(p, d), fs, folders, out)
  }

  /** What `search_images_by_image` promises. */
  predicate ImageSearchSpec<E>(p: Provider<E>, fs: FileSystem, reference: string, folders: seq<string>, out: Outcome)
  {
    match p.embedImage(reference)
    case None => out == Raised
    case Some(r) => ScannedAndRanked(ImageScorer(p, r), fs, folders, out)
  }

  /** What `search_images_combined` promises. */
  predicate CombinedSearchSpec<E>(p: Provider<E>, fs: FileSystem, reference: string, description: string,
                                  folders: seq<string>, out: Outcome)
  {
    match p.embedImage(reference)
    case None => out == Raised
    case Some(r) =>
      if !p.tokenizes(description) then out == Raised
      else
        match p.encodeText(description)
        case None => out == Raised
        case Some(d) => ScannedAndRanked(CombinedScorer(p, r, d), fs, folders, out)
  }

  /**
   * `search_images_by_description`: tokenizing sits outside the `try` and raises;
   * a failure to encode the description is caught and yields `[]` before any folder
   * is scanned. A directory that cannot be listed raises. Otherwise the candidates are chunked into batches of ten, each batch
   * is scored, the batch results are merged in completion order and then ranked.
   */
  method SearchByDescription<E>(p: Provider<E>, fs: FileSystem, description: string, folders: seq<string>)
    returns (out: Outcome)
    ensures DescriptionSearchSpec(p, fs, description, folders, out)
  {
    if !p.tokenizes(description) {
      return Raised;
    }
    var encoded := p.encodeText(description);
    if encoded.None? {
      return Done([]);
    }
    var scorer := TextScorer(p, encoded.value);
    var scan := EnumerateCandidates(fs, folders);
    if scan.None? {
      return Raised;
    }
    var paths := scan.value;
    var batches := Chunkify(paths, BatchSize);
    var futures: seq<seq<Entry>> := [];
    for i := 0 to |batches|
      invariant |futures| == i
      invariant forall k :: 0 <= k < i ==> futures[k] == ScoreAll(scorer, batches[k])
    {
      var batchResults := ProcessImageBatch(batches[i], scorer);
      futures := futures + [batchResults];
    }
    var results := MergeBatchResults(futures);
    FlattenScoreAll(scorer, batches, futures);
    FlattenChunkify(paths, BatchSize);
    out := Done(Rank(results));
  }

  /**
   * `search_images_by_image`: the reference image is opened and embedded outside any
   * `try`, so its failure raises, as does a directory that cannot be listed; otherwise
   * one task per candidate file, merged in
   * completion order, then ranked.
   */
  method SearchByImage<E>(p: Provider<E>, fs: FileSystem, reference: string, folders: seq<string>)
    returns (out: Outcome)
    ensures ImageSearchSpec(p, fs, reference, folders, out)
  {
    var query := p.embedImage(reference);
    if query.None? {
      return Raised;
    }
    var scorer := ImageScorer(p, query.value);
    var scan := EnumerateCandidates(fs, folders);
    if scan.None? {
      return Raised;
    }
    var paths := scan.value;
    var futures: seq<Option<Entry>> := [];
    for i := 0 to |paths|
      invariant |futures| == i
      invariant forall k :: 0 <= k < i ==> futures[k] == Attempt(scorer, paths[k])
    {
      futures := futures + [Attempt(scorer, paths[i])];
    }
    var results := MergeFileResults(futures);
    SuccessesOfAttempts(scorer, paths, futures);
    out := Done(Rank(results));
  }

  /**
   * `search_images_combined`: both query embeddings are computed outside any `try`,
   * so a failure of either raises, as does a directory that cannot be listed; each candidate scores the mean of its image and
   * text similarities, one task per file, merged in completion order, then ranked.
   */
  method SearchCombined<E>(p: Provider<E>, fs: FileSystem, reference: string, description: string,
                           folders: seq<string>)
    returns (out: Outcome)
    ensures CombinedSearchSpec(p, fs, reference, description, folders, out)
  {
    var image := p.embedImage(reference);
    if image.None? || !p.tokenizes(description) {
      return Raised;
    }
    var text := p.encodeText(description);
    if text.None? {
      return Raised;
    }
    var scorer := CombinedScorer(p, image.value, text.value);
    var scan := EnumerateCandidates(fs, folders);
    if scan.None? {
      return Raised;
    }
    var paths := scan.value;
    var futures: seq<Option<Entry>> := [];
    for i := 0 to |paths|
      invariant |futures| == i
      invariant forall k :: 0 <= k < i ==> futures[k] == Attempt(scorer, paths[k])
    {
      futures := futures + [Attempt(scorer, paths[i])];
    }
    var results := MergeFileResults(futures);
    SuccessesOfAttempts(scorer, paths, futures);
    out := Done(Rank(results));
  }

  /** Which search `run` starts. */
  datatype Mode = Combined | ImageOnly | TextOnly | NoQuery

  /** The `if`/`elif` chain of `run`, on Python truthiness: a string is present when non-empty. */
  function Dispatch(imagePath: string, description: string): (m: Mode)
    ensures m == Combined <==> imagePath != [] && description != []
    ensures m == ImageOnly <==> imagePath != [] && description == []
    ensures m == TextOnly <==> imagePath == [] && description != []
    ensures m == NoQuery <==> imagePath == [] && description == []
  {
    if imagePath != [] && description != [] then Combined
    else if imagePath != [] then ImageOnly
    else if description != [] then TextOnly
    else NoQuery
  }

  /** The test is raw non-emptiness: a description of one space still selects combined search. */
  lemma WhitespaceIsPresent()
    ensures Dispatch("/tmp/ref.png", " ") == Combined
    ensures Dispatch("", " ") == TextOnly
  {
  }

  /** What `run` promises for each mode. */
  predicate RunSpec<E>(p: Provider<E>, fs: FileSystem, imagePath: string, description: string,
                       folders: seq<string>, out: Outcome)
  {
    match Dispatch(imagePath, description)
    case Combined => CombinedSearchSpec(p, fs, imagePath, description, folders, out)
    case ImageOnly => ImageSearchSpec(p, fs, imagePath, folders, out)
    case TextOnly => DescriptionSearchSpec(p, fs, description, folders, out)
    case NoQuery => out == Done([])
  }

  /** `ImageSearchThread.run`: dispatch on which inputs are present; neither gives `[]` without any work. */
  method Run<E>(p: Provider<E>, fs: FileSystem, imagePath: string, description: string, folders: seq<string>)
    returns (out: Outcome)
    ensures RunSpec(p, fs, imagePath, description, folders, out)
  {
    if imagePath != [] && description != [] {
      out := SearchCombined(p, fs, imagePath, description, folders);
    } else if imagePath != [] {
      out := SearchByImage(p, fs, imagePath, folders);
    } else if description != [] {
      out := SearchByDescription(p, fs, description, folders);
    } else {
      out := Done([]);
    }
  }

  /**
   * Repeated runs on the same inputs agree on whether the search raises, on the
   * entries found, and on the score at every position; only the order among entries
   * with equal scores may differ, since it follows completion order.
   */
  lemma RunDeterministicUpToTies<E>(p: Provider<E>, fs: FileSystem, imagePath: string, description: string,
                                    folders: seq<string>, o1: Outcome, o2: Outcome)
    requires RunSpec(p, fs, imagePath, description, folders, o1)
    requires RunSpec(p, fs, imagePath, description, folders, o2)
    ensures o1.Raised? <==> o2.Raised?
    ensures o1.Done? ==> multiset(o1.results) == multiset(o2.results) && Scores(o1.results) == Scores(o2.results)
  {
    if o1.Done? && o2.Done? {
      SortedPermutationsShareScores(o1.results, o2.results);
    }
  }

  /**
   * A directory that passes `isdir` but cannot be listed leaves no results: once the
   * query is embedded the search raises; only a text search whose description cannot
   * be encoded returns `[]` first, and with no query there is no scan.
   */
  lemma UnlistableFolderAbortsSearch<E>(p: Provider<E>, fs: FileSystem, imagePath: string, description: string,
                                        folders: seq<string>, out: Outcome)
    requires RunSpec(p, fs, imagePath, description, folders, out)
    requires exists i :: 0 <= i < |folders| && folders[i] in fs && fs[folders[i]].None?
    ensures out.Done? ==> out.results == []
    ensures Dispatch(imagePath, description) == ImageOnly || Dispatch(imagePath, description) == Combined ==>
              out == Raised
    ensures Dispatch(imagePath, description) == TextOnly ==>
              (out == Raised <==> !(p.tokenizes(description) && p.encodeText(description).None?))
  {
    ScanOutcome(fs, folders);
    assert Scan(fs, folders) == None;
  }

  lemma RankingOfTwo(r: seq<Entry>, a: Entry, b: Entry)
    requires a.score > b.score
    requires IsRankingOf(r, [a, b])
    ensures r == [a, b]
  {
    assert |r| == |multiset(r)| == 2;
    assert r[0] in multiset(r) && r[1] in multiset(r);
    assert multiset(r) == multiset{a} + multiset{r[1]};
  }

  /**
   * Three candidates where the middle one fails to decode: the ranked result holds the
   * other two, best first, and no entry for the failed file.
   */
  lemma PartialFailureRanking(scorer: Scorer, a: string, b: string, c: string, r: seq<Entry>)
    requires scorer(a) == Some(0.3) && scorer(b) == None && scorer(c) == Some(0.9)
    requires IsRankingOf(r, ScoreAll(scorer, [a, b, c]))
    ensures r == [Entry(c, 0.9), Entry(a, 0.3)]
  {
    PartialFailureExample(scorer, a, b, c);
    assert multiset([Entry(a, 0.3), Entry(c, 0.9)]) == multiset([Entry(c, 0.9), Entry(a, 0.3)]);
    RankingOfTwo(r, Entry(c, 0.9), Entry(a, 0.3));
  }
}
