/**
 * Per-file scoring with failure isolation: `process_image_batch` and the
 * per-file closures `process_image_with_features` / `process_combined_image`
 * (desk.py), over an abstract embedding provider.
 */
module Scoring {
  import opened Wrappers

  /** A cosine similarity; real numbers stand in for the model's floats. */
  type Score = real

  /** A `(file_path, similarity)` result pair. */
  datatype Entry = Entry(path: string, score: Score)

  /**
   * The embedding model as seen by the search code, for an embedding type `E`.
   * `tokenizes(t)`: `clip.tokenize([t])` returns rather than raising.
   * `encodeText(t)`: `model.encode_text` of the tokens, `None` when it raises.
   * `embedImage(path)`: `Image.open` + `preprocess` + `model.encode_image`, `None` when any of them raises.
   * `similarity(a, b)`: `torch.cosine_similarity(a, b).item()`.
   */
  datatype Provider<!E> = Provider(
    tokenizes: string -> bool,
    encodeText: string -> Option<E>,
    embedImage: string -> Option<E>,
    similarity: (E, E) -> Score)

  /** What scoring one file gives: its score, or `None` when that file's processing raised. */
  type Scorer = string -> Option<Score>

  /** The mean of two similarities, `(image_similarity + text_similarity) / 2`. */
  function Mean(a: Score, b: Score): (r: Score)
    ensures (a <= r <= b) || (b <= r <= a)
    ensures r - a == b - r
  {
    (a + b) / 2.0
  }

  /** Text mode: similarity of the file's embedding with the description's. */
  function TextScore<E>(p: Provider<E>, description: E, path: string): Option<Score>
  {
    match p.embedImage(path)
    case None => None
    case Some(f) => Some(p.similarity(description, f))
  }

  /** Image mode: similarity of the file's embedding with the reference image's. */
  function ImageScore<E>(p: Provider<E>, reference: E, path: string): Option<Score>
  {
    match p.embedImage(path)
    case None => None
    case Some(f) => Some(p.similarity(reference, f))
  }

  /** Combined mode: the mean of the image and the text similarity of the file. */
  function CombinedScore<E>(p: Provider<E>, reference: E, description: E, path: string): Option<Score>
  {
    match p.embedImage(path)
    case None => None
    case Some(f) => Some(Mean(p.similarity(reference, f), p.similarity(description, f)))
  }

  function TextScorer<E>(p: Provider<E>, description: E): Scorer
  {
    path => TextScore(p, description, path)
  }

  function ImageScorer<E>(p: Provider<E>, reference: E): Scorer
  {
    path => ImageScore(p, reference, path)
  }

  function CombinedScorer<E>(p: Provider<E>, reference: E, description: E): Scorer
  {
    path => CombinedScore(p, reference, description, path)
  }

  /**
   * A file fails in combined mode exactly when it fails in the single modes, and when
   * it succeeds its combined score lies between its image and its text similarity.
   */
  lemma CombinedBetween<E>(p: Provider<E>, reference: E, description: E, path: string)
    ensures CombinedScore(p, reference, description, path).Some?
            <==> ImageScore(p, reference, path).Some?
    ensures CombinedScore(p, reference, description, path).Some?
            <==> TextScore(p, description, path).Some?
    ensures CombinedScore(p, reference, description, path).Some? ==>
              var c, i, t := CombinedScore(p, reference, description, path).value,
                             ImageScore(p, reference, path).value,
                             TextScore(p, description, path).value;
              (i <= c <= t || t <= c <= i) && c - i == t - c
  {
  }

  /** Image similarity 0.60 and text similarity 0.40 combine to exactly 0.50. */
  lemma MeanExample()
    ensures Mean(0.60, 0.40) == 0.50
  {
  }

  /** The per-file closure outcome: the pair, or `None` when the file failed. */
  function Attempt(scorer: Scorer, path: string): Option<Entry>
  {
    match scorer(path)
    case None => None
    case Some(s) => Some(Entry(path, s))
  }

  /** A closure returns a pair exactly when scoring its file succeeds, and the pair is that file with its own score. */
  lemma AttemptOutcome(scorer: Scorer, path: string)
    ensures Attempt(scorer, path).Some? <==> scorer(path).Some?
    ensures Attempt(scorer, path).Some? ==>
              Attempt(scorer, path).value.path == path && scorer(path) == Some(Attempt(scorer, path).value.score)
  {
  }

  /** The entries of a sequential pass over `paths`: one per file that scored, in order. */
  function ScoreAll(scorer: Scorer, paths: seq<string>): (r: seq<Entry>)
    ensures |r| <= |paths|
    ensures forall e :: e in r ==> e.path in paths && scorer(e.path) == Some(e.score)
  {
    if paths == [] then []
    else
      var init := paths[..|paths| - 1];
      ScoreAll(scorer, init) +
        match Attempt(scorer, paths[|paths| - 1])
        case None => []
        case Some(e) => [e]
  }

  /** The paths of `paths` whose scoring succeeded, in order. */
  function Succeeded(scorer: Scorer, paths: seq<string>): seq<string>
  {
    if paths == [] then []
    else
      var last := paths[|paths| - 1];
      Succeeded(scorer, paths[..|paths| - 1]) + if scorer(last).Some? then [last] else []
  }

  function PathsOf(entries: seq<Entry>): (r: seq<string>)
    ensures |r| == |entries|
    ensures forall i :: 0 <= i < |entries| ==> r[i] == entries[i].path
  {
    seq(|entries|, i requires 0 <= i < |entries| => entries[i].path)
  }

  /**
   * The output paths are exactly the files whose scoring succeeded, in batch order,
   * each paired with its own score.
   */
  lemma {:induction false} ScoreAllIsSucceeded(scorer: Scorer, paths: seq<string>)
    ensures PathsOf(ScoreAll(scorer, paths)) == Succeeded(scorer, paths)
    ensures forall i :: 0 <= i < |ScoreAll(scorer, paths)| ==>
              scorer(ScoreAll(scorer, paths)[i].path) == Some(ScoreAll(scorer, paths)[i].score)
  {
    if paths != [] {
      ScoreAllIsSucceeded(scorer, paths[..|paths| - 1]);
    }
  }

  /** Each file is scored independently of its neighbours. */
  lemma {:induction false} ScoreAllAppend(scorer: Scorer, a: seq<string>, b: seq<string>)
    ensures ScoreAll(scorer, a + b) == ScoreAll(scorer, a) + ScoreAll(scorer, b)
  {
    if b == [] {
      assert a + b == a;
    } else {
      assert (a + b)[..|a + b| - 1] == a + b[..|b| - 1];
      ScoreAllAppend(scorer, a, b[..|b| - 1]);
    }
  }

  /** A failing file contributes no entry (no sentinel) and does not disturb the others. */
  lemma FailureLeavesNoEntry(scorer: Scorer, before: seq<string>, path: string, after: seq<string>)
    requires scorer(path) == None
    ensures ScoreAll(scorer, before + [path] + after) == ScoreAll(scorer, before) + ScoreAll(scorer, after)
  {
    assert ScoreAll(scorer, [path]) == [] by {
      assert [path][..0] == [];
    }
    ScoreAllAppend(scorer, before, [path]);
    assert ScoreAll(scorer, before + [path]) == ScoreAll(scorer, before);
    ScoreAllAppend(scorer, before + [path], after);
  }

  /** A succeeding file contributes exactly its own pair, in place. */
  lemma SuccessLeavesOneEntry(scorer: Scorer, before: seq<string>, path: string, after: seq<string>)
    requires scorer(path).Some?
    ensures ScoreAll(scorer, before + [path] + after)
            == ScoreAll(scorer, before) + [Entry(path, scorer(path).value)] + ScoreAll(scorer, after)
  {
    ScoreAllAppend(scorer, before + [path], after);
    ScoreAllAppend(scorer, before, [path]);
    assert [path][..0] == [];
  }

  /** Of files A, B, C where B fails, exactly A and C get entries. */
  lemma PartialFailureExample(scorer: Scorer, a: string, b: string, c: string)
    requires scorer(a).Some? && scorer(b) == None && scorer(c).Some?
    ensures ScoreAll(scorer, [a, b, c]) == [Entry(a, scorer(a).value), Entry(c, scorer(c).value)]
  {
    SuccessLeavesOneEntry(scorer, [], a, [b, c]);
    FailureLeavesNoEntry(scorer, [], b, [c]);
    SuccessLeavesOneEntry(scorer, [], c, []);
    assert [] + [a] + [b, c] == [a, b, c];
    assert [] + [b] + [c] == [b, c];
    assert [] + [c] + [] == [c];
  }

  /** `process_image_batch`: score each file of the batch, skipping (and reporting) the ones that raise. */
  method ProcessImageBatch(batch: seq<string>, scorer: Scorer) returns (results: seq<Entry>)
    ensures results == ScoreAll(scorer, batch)
  {
    results := [];
    for i := 0 to |batch|
      invariant results == ScoreAll(scorer, batch[..i])
    {
      assert batch[..i + 1][..i] == batch[..i];
      match scorer(batch[i])
      case Some(similarity) =>
        results := results + [Entry(batch[i], similarity)];
      case None =>
    }
    assert batch[..|batch|] == batch;
  }

  /** The pairs among the per-file outcomes, in order (`if result: results.append(result)`). */
  function Successes(outcomes: seq<Option<Entry>>): seq<Entry>
  {
    if outcomes == [] then [] else Pairs(outcomes[0]) + Successes(outcomes[1..])
  }

  /** What one outcome adds: its pair, or nothing. */
  function Pairs(outcome: Option<Entry>): seq<Entry>
  {
    match outcome
    case None => []
    case Some(e) => [e]
  }

  lemma {:induction false} SuccessesAppend(a: seq<Option<Entry>>, b: seq<Option<Entry>>)
    ensures Successes(a + b) == Successes(a) + Successes(b)
  {
    if a == [] {
      assert a + b == b;
    } else {
      assert (a + b)[1..] == a[1..] + b;
      SuccessesAppend(a[1..], b);
    }
  }

  /** One outcome per file, computed independently, keeps exactly the entries a sequential pass keeps. */
  lemma {:induction false} SuccessesOfAttempts(scorer: Scorer, paths: seq<string>, outcomes: seq<Option<Entry>>)
    requires |outcomes| == |paths|
    requires forall k :: 0 <= k < |paths| ==> outcomes[k] == Attempt(scorer, paths[k])
    ensures Successes(outcomes) == ScoreAll(scorer, paths)
  {
    if paths != [] {
      var n := |paths| - 1;
      var init, last := outcomes[..n], outcomes[n];
      forall k | 0 <= k < n
        ensures init[k] == Attempt(scorer, paths[..n][k])
      {
        assert init[k] == outcomes[k] && paths[..n][k] == paths[k];
      }
      SuccessesOfAttempts(scorer, paths[..n], init);
      assert outcomes == init + [last];
      SuccessesSnoc(init, last);
      ScoreAllSnoc(scorer, paths);
    }
  }

  lemma SuccessesSnoc(init: seq<Option<Entry>>, last: Option<Entry>)
    ensures Successes(init + [last]) == Successes(init) + Pairs(last)
  {
    SuccessesAppend(init, [last]);
    assert Successes([last]) == Pairs(last) + Successes([]);
  }

  lemma ScoreAllSnoc(scorer: Scorer, paths: seq<string>)
    requires paths != []
    ensures ScoreAll(scorer, paths) == ScoreAll(scorer, paths[..|paths| - 1]) + Pairs(Attempt(scorer, paths[|paths| - 1]))
  {
  }
}
