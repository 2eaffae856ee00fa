# Findmage search pipeline, modelled in Dafny

Findmage is a desktop image-search tool (`Findmage/cont/desk.py`). The user gives a
reference image, a text description, or both. The program scans a fixed list of
picture folders, scores every image file against the query with CLIP embeddings, and
shows the best matches in a Qt window. This project models the bookkeeping around the
model, which is:

- the folder scan that collects candidate files;
- `chunkify`, which splits the candidates into batches of ten;
- per-file scoring where one failing file is skipped and does not stop the others;
- merging the worker results in completion order, then a stable descending sort;
- `ImageSearchThread.run`, which picks one of the three searches;
- `MainWindow.display_results`, which applies the threshold and shows at most the chosen number of results.

Modules, one file each:

| module | file | what it holds |
|---|---|---|
| `Wrappers` | wrappers.dfy | `Option` |
| `Text` | text.dfy | `str.lower` (ASCII), `str.endswith`, `str.strip` |
| `Enumeration` | enumeration.dfy | the folder scan (an imperative loop and its specification `Candidates`) |
| `Chunks` | chunks.dfy | `chunkify` and its inverse `Flatten` |
| `Scoring` | scoring.dfy | the embedding provider, the three per-file scorers, `process_image_batch` |
| `Ranking` | ranking.dfy | `results.sort(key=score, reverse=True)` as a stable insertion sort |
| `Search` | search.dfy | the three `search_images_*` functions, the `as_completed` merges, `run` |
| `Display` | display.dfy | the `MainWindow` state, `start_search`, `display_results` |

How the external pieces are abstracted:
- **File system:** a map from each folder that is a directory to what `os.listdir` gives for it: its names in listing order, or `None` when listing raises. A folder outside the map is not a directory.
- **CLIP, torch and PIL:** a `Provider` value with four total functions:
  - whether `clip.tokenize` succeeds on a text;
  - the text embedding, or `None` when `encode_text` raises;
  - the image embedding, or `None` when opening, preprocessing or encoding raises;
  - the similarity of two embeddings.
- **Scores:** `real`.
- **The thread pool:** modelled sequentially. Every submitted task's result is computed first. Then the `as_completed` loop takes the finished results in an order the model leaves open (`:|` choice).
- **A search that raises:** it is `Outcome.Raised`. The exception escapes `run`, so `results_ready` is never emitted.

Where the documentation of the program and its code disagree, the model follows the code:
- **Ties:** results with equal scores are not ordered by discovery order. The stable sort keeps them in completion order, and completion order is not deterministic.
- **Dispatch:** it tests raw non-emptiness. A description of only spaces counts as present.
- **Threshold:** it applies only when the image field is non-blank and the description is blank, after `strip`. Results of text searches, and of combined searches whose description has something other than whitespace, are shown unfiltered. A combined search whose description is only whitespace is cut at the threshold (`Display.WhitespaceDescription`).
- **Query-encoding failures:**
  - a text-only search returns `[]` when the description cannot be encoded, because `encode_text` sits inside a `try`;
  - tokenizing in text mode and every query failure in image and combined mode raise;
  - a search that raises emits no results, so the model leaves the result box as it was (see `Display.MainWindow.StartSearch` under "## Left out").
- **Unreadable directories:** the design skips a directory that cannot be read. In the code, `os.listdir` (desk.py:108, 151, 197) sits outside any `try`, so such a directory makes the whole search raise. See "## Findings".

## Model

| member | source | states |
|---|---|---|
| Text.Lower | Findmage/cont/desk.py:109 | `lower()` keeps the length and maps each character on its own. |
| Text.Strip | Findmage/cont/desk.py:451 | `strip()` yields a slice of the text with only whitespace before and after it, neither starting nor ending with whitespace. It is empty exactly when the text is all whitespace. |
| Enumeration.EnumerateCandidates | Findmage/cont/desk.py:103-111 | The scan loop produces exactly `Scan`: for each folder in order, nothing when it is not a directory, an abort when its listing raises, else its image entries joined onto it in listing order. |
| Enumeration.ScanOutcome | Findmage/cont/desk.py:103-111 | The scan aborts exactly when some given directory cannot be listed; otherwise it yields `Candidates`, about which the lemmas below speak. |
| Enumeration.UnlistableFolderAbortsScan | Findmage/cont/desk.py:105-108 | An unlistable directory given before a readable one aborts the scan as written, while skipping it would keep the readable one's images. |
| Enumeration.EnumerateSkippingUnlistable | Findmage/cont/desk.py:103-111 | The scan with unlistable directories skipped always succeeds and yields exactly `Candidates`. |
| Enumeration.SkipsUnlistable | Findmage/cont/desk.py:105-108 | With skipping, a directory that cannot be listed contributes nothing and the scan continues with the following folders. |
| Enumeration.Join | Findmage/cont/desk.py:110 | `os.path.join` (POSIX): the path ends with the name and, for a relative name, starts with the folder. |
| Enumeration.IsImageName | Findmage/cont/desk.py:109 | The case-insensitive test of the four image extensions, stated through `CandidatesAreImages`, `JoinKeepsImageExtension` and `ExtensionExamples`. |
| Enumeration.ImageFiles | Findmage/cont/desk.py:108-111 | The entries of one listing that pass the extension test, joined onto the folder in listing order. `ImageFilesMembership`, `ImageFilesAreImages` and `EnumerateCandidates` state its properties. |
| Enumeration.JoinKeepsImageExtension | Findmage/cont/desk.py:109-110 | Joining an image name onto any folder still passes the case-insensitive extension test. |
| Enumeration.CandidatesAreImages | Findmage/cont/desk.py:103-111 | Every emitted path ends, case-insensitively, with `.png`, `.jpg`, `.jpeg` or `.bmp`. |
| Enumeration.CandidatesMembership | Findmage/cont/desk.py:103-111 | A path is emitted if and only if some given folder is a directory listing an image name that joins onto it to give that path. |
| Enumeration.CandidatesAppend | Findmage/cont/desk.py:104 | Folders are visited in the given order: the scan of `a + b` is the scan of `a` followed by the scan of `b`. |
| Enumeration.SkipsNonDirectory | Findmage/cont/desk.py:105-107 | A folder that is not a directory contributes nothing and the scan continues with the following folders. |
| Enumeration.NoDeduplication | Findmage/cont/desk.py:104-111 | A path occurs as many times as the folders that reach it list it; nothing is deduplicated. |
| Enumeration.FolderGivenTwice | Findmage/cont/desk.py:104-111 | A folder configured twice yields its images twice. |
| Enumeration.ExtensionExamples | Findmage/cont/desk.py:109 | `a.jpg`, `b.PNG` and `c.bmp` pass the extension test; `notes.txt` does not. |
| Chunks.Chunkify | Findmage/cont/desk.py:98-101 | Every chunk is non-empty and at most `n` long, and every chunk but the last has exactly `n` elements. |
| Chunks.FlattenChunkify | Findmage/cont/desk.py:98-101 | Concatenating the chunks gives back the list. |
| Chunks.ChunkCount | Findmage/cont/desk.py:100 | There are ceil(len / n) chunks. |
| Chunks.ChunkAt | Findmage/cont/desk.py:100-101 | The k-th chunk is `lst[k*n : k*n + n]`, clipped at the end of the list. |
| Scoring.Mean | Findmage/cont/desk.py:186 | The combined similarity lies between the two similarities and is equally far from both. |
| Scoring.TextScore | Findmage/cont/desk.py:79-82 | A file's text-mode score is the similarity of the description features to the file's embedding; the file fails when its embedding fails. `ScoreAllIsSucceeded` and `SearchByDescription` state its use. |
| Scoring.ImageScore | Findmage/cont/desk.py:138-141 | A file's image-mode score is the similarity of the reference features to the file's embedding; the file fails when its embedding fails. `SearchByImage` states its use. |
| Scoring.CombinedScore | Findmage/cont/desk.py:182-187 | A file's combined score is the mean of its image and text similarities, both taken against the file's one embedding. `CombinedBetween` states its bounds and failure condition. |
| Scoring.Attempt | Findmage/cont/desk.py:136-144 | The per-file closure of image and combined mode: the pair of the path and its score, or `None` when scoring raises. `AttemptOutcome` and `SuccessesOfAttempts` state its properties. |
| Scoring.AttemptOutcome | Findmage/cont/desk.py:136-144 | The closure returns a pair exactly when the file's scoring succeeds, and that pair holds the file's own path and its score. The combined closure at lines 180-190 has the same shape. |
| Scoring.CombinedBetween | Findmage/cont/desk.py:180-190 | A file fails in combined mode exactly when its embedding fails. When it succeeds, its combined score lies between its image and text similarities. |
| Scoring.MeanExample | Findmage/cont/desk.py:186 | Similarities 0.60 and 0.40 combine to 0.50. |
| Scoring.ScoreAll | Findmage/cont/desk.py:75-85 | No more entries than files; each entry names a file of the batch and carries that file's own score. |
| Scoring.ProcessImageBatch | Findmage/cont/desk.py:75-85 | The batch loop with try/except returns exactly `ScoreAll` of the batch. |
| Scoring.ScoreAllIsSucceeded | Findmage/cont/desk.py:75-85 | The output paths are exactly the files whose scoring succeeded, in batch order, each paired with its score. |
| Scoring.ScoreAllAppend | Findmage/cont/desk.py:77-84 | Each file is scored independently: scoring `a + b` is scoring `a` then `b`. |
| Scoring.FailureLeavesNoEntry | Findmage/cont/desk.py:83-84 | A failing file contributes no entry and leaves its neighbours' entries unchanged. |
| Scoring.SuccessLeavesOneEntry | Findmage/cont/desk.py:82 | A succeeding file contributes exactly its own pair, in place. |
| Scoring.PartialFailureExample | Findmage/cont/desk.py:75-85 | For files A, B, C where B fails, the output is exactly A's and C's pairs. |
| Scoring.SuccessesOfAttempts | Findmage/cont/desk.py:136-144 | One outcome per file from the per-file closure yields exactly the entries a sequential batch pass yields. |
| Ranking.Insert | Findmage/cont/desk.py:121 | Inserting an entry keeps every entry, adds exactly that one and invents none. |
| Ranking.InsertSorted | Findmage/cont/desk.py:121 | Inserting into a descending list keeps it descending. |
| Ranking.Rank | Findmage/cont/desk.py:121 | The sort yields a non-increasing list by score that is a permutation of its input. |
| Ranking.RankStable | Findmage/cont/desk.py:121 | The sort is stable: entries with equal scores keep their relative order. |
| Ranking.RankSortedIsIdentity | Findmage/cont/desk.py:121 | Sorting an already descending list changes nothing. |
| Ranking.RankIdempotent | Findmage/cont/desk.py:121 | Sorting twice is sorting once. |
| Ranking.SortedPermutationsShareScores | Findmage/cont/desk.py:116-121 | Two descending orders of the same entries have the same score at every position. Completion order only affects which of several equally scored paths comes first. |
| Search.MergeBatchResults | Findmage/cont/desk.py:114-119 | Taking the batch results in any completion order and extending gives a permutation of all batches' entries. |
| Search.MergeFileResults | Findmage/cont/desk.py:157-162 | Taking the per-file results in any completion order and appending the pairs gives a permutation of all successful pairs. |
| Search.FlattenScoreAll | Findmage/cont/desk.py:114-119 | Scoring every batch separately loses and adds nothing compared with scoring the whole candidate list. |
| Search.SearchByDescription | Findmage/cont/desk.py:87-127 | Tokenizing failure raises. An encoding failure gives `[]`. A directory that cannot be listed raises. Otherwise the result is a descending permutation of the successful text-similarity pairs of all candidates. |
| Search.SearchByImage | Findmage/cont/desk.py:129-169 | A failing reference image raises, and so does a directory that cannot be listed. Otherwise the result is a descending permutation of the successful image-similarity pairs of all candidates. |
| Search.SearchCombined | Findmage/cont/desk.py:171-215 | A failure of either query raises, and so does a directory that cannot be listed. Otherwise the result is a descending permutation of the successful mean-similarity pairs of all candidates. |
| Search.Dispatch | Findmage/cont/desk.py:227-234 | Combined iff both strings are non-empty; image iff only the path is; text iff only the description is; nothing iff neither is. |
| Search.WhitespaceIsPresent | Findmage/cont/desk.py:227-232 | The test is raw non-emptiness: a description of one space selects combined or text search. |
| Search.Run | Findmage/cont/desk.py:226-236 | `run` meets the specification of the search it dispatches to, including its raise on an unlistable directory, and returns `[]` without searching when both inputs are empty. |
| Search.RunDeterministicUpToTies | Findmage/cont/desk.py:226-236 | Two runs on the same inputs agree on whether they raise, on the multiset of entries, and on the score at every position. |
| Search.UnlistableFolderAbortsSearch | Findmage/cont/desk.py:226-236 | With an unlistable directory among the folders no search yields results. Image and combined searches raise. A text search raises unless its description tokenizes but cannot be encoded. |
| Search.RankingOfTwo | Findmage/cont/desk.py:121 | The only descending order of two entries with different scores puts the higher first. |
| Search.PartialFailureRanking | Findmage/cont/desk.py:157-164 | For scores 0.3, failure, 0.9, the emitted list is exactly the 0.9 entry, then the 0.3 entry. |
| Display.Threshold | Findmage/cont/desk.py:443 | The threshold is the slider value divided by 100, so it lies in [0.20, 0.99] for the slider's range. |
| Display.ThresholdApplies | Findmage/cont/desk.py:451 | The threshold applies only when the stripped path is non-empty and the stripped description is empty. `WhitespaceDescription` and `MainWindow.Clear` state its consequences. |
| Display.Filtered | Findmage/cont/desk.py:451-456 | The list shown: the results reaching the threshold when it applies, else all results. `FilteredShape` and `FilteredOfRankedIsPrefix` state its properties. |
| Display.Presentation | Findmage/cont/desk.py:458-465 | The widgets the box ends with: the lone "No results found." label, or one card per leading filtered entry up to `max_results`. `PresentationShape`, `ShownAreTopRanked` and `MainWindow.DisplayResults` state its properties. |
| Display.AtLeast | Findmage/cont/desk.py:453 | The filter returns no more entries than it is given, and every kept entry reaches the threshold. |
| Display.AtLeastKeeps | Findmage/cont/desk.py:453 | Every entry reaching the threshold is kept as often as it occurs; every other entry is dropped. |
| Display.AtLeastOfRankedIsPrefix | Findmage/cont/desk.py:453 | On a descending list the filter keeps a prefix, and everything after it is below the threshold. |
| Display.FilteredShape | Findmage/cont/desk.py:451-456 | The filtered list holds only entries of the results, reaching the threshold when it applies. It is empty iff every score is below the threshold (threshold case) or the results are empty (otherwise). |
| Display.FilteredOfRankedIsPrefix | Findmage/cont/desk.py:451-456 | On ranked results the filtered list is a prefix of them, whether or not the threshold applies. |
| Display.PresentationShape | Findmage/cont/desk.py:441-465 | With the spin box and slider in range, and whether or not the threshold applies: the box holds 1 to `max_results` widgets; it is the lone "No results found." label iff nothing passes the filter; every card shows a result that passes the filter. |
| Display.ShownAreTopRanked | Findmage/cont/desk.py:458-465 | For ranked results the cards are the leading entries of the ranking, and every card's score is at least that of every result not shown. |
| Display.WhitespaceDescription | Findmage/cont/desk.py:227-234 | A description of one space selects combined search, yet counts as blank for the display. Those combined results are therefore cut at the threshold. |
| Display.MainWindow.constructor | Findmage/cont/desk.py:291-356 | Start state: empty fields, ten results, slider 80 (threshold 0.80), and a box holding only the text area. |
| Display.MainWindow.DisplayResults | Findmage/cont/desk.py:441-465 | The result box is cleared, then holds the "No results found." label when the filtered list is empty. Otherwise it holds one card for each of the first min(max_results, len) filtered entries, in order. The box holds 1 to `max_results` widgets. |
| Display.MainWindow.Clear | Findmage/cont/desk.py:499-501 | Both query fields are emptied, so the next search dispatches to no query and no threshold applies. |
| Display.MainWindow.StartSearch | Findmage/cont/desk.py:419-435 | The search runs on the raw field texts. On success the box shows its presentation; on a raise the box is unchanged. |

## Left out

- **Qt GUI:** the widget tree, styling, spinner, overlay and signal wiring (`Spinner`, most of `MainWindow.__init__`, `on_search_finished`, `update_overlay_geometry`). The result box is modelled as a sequence of widget descriptions.
- **`update_slider_label` and the card contents:** these are display text only. Cards keep path and score, not the pixmap or the `Score: {score:.2f}` text.
- **`open_file_dialog`, `open_image` and the `possible_folders` list:** these are platform I/O and fixed configuration. The folder list is a parameter of the searches.
- **CLIP, torch and PIL:** `load_clip_model`, `clip.tokenize`, `encode_text`, `encode_image`, `cosine_similarity` and `Image.open` are foreign calls on floating point. They are the `Provider` parameter, and scores are exact reals, so rounding and NaN are not modelled.
- **`calculate_similarity_score`:** no caller uses it.
- **`ThreadPoolExecutor`:**
  - the worker threads, `max_threads` and real concurrency are not modelled;
  - only the arbitrary order of `as_completed` is kept;
  - a failure inside a worker other than the per-file `try` is not modelled, because every task body catches its exceptions.
- **`torch.cuda.empty_cache()` and `gc.collect()`:** memory housekeeping with no observable effect on the results.
- **`print` diagnostics:** they report skipped folders and failed files and have no effect on the results.
- Enumeration.Join: models `posixpath.join` only; Windows `ntpath` joining and drive letters are not modelled.
- Text.Lower: maps only ASCII `A`–`Z`, whereas Python's `str.lower` also lower-cases other scripts. No non-ASCII character lower-cases to one of the letters of the four extensions, so the extension test is unaffected.
- Ranking.Rank: `results.sort` sorts the list in place. The model sorts a value with a stable insertion sort, so the in-place update and any aliasing of the list are not captured.
- Enumeration.ExtensionExamples: the concrete example covers the extension test only. A literal multi-folder file system example is not included; `FolderGivenTwice` and `SkipsNonDirectory` state the same facts for all inputs.
- Display.MainWindow.StartSearch: runs the search and shows its results in one step, reading the fields, spin box and slider as they were when the search started. In the program the search runs on a `QThread` (desk.py:435), and `display_results` reads those widgets only when `results_ready` arrives (desk.py:442-443, 451), so changes the user makes in between are not modelled. A search that raises is modelled as leaving the window and its result box as they were. What the Qt runtime does with an exception escaping `QThread.run` (PyQt may abort the application) is outside the model.

## Findings

| source | as written | input that shows it | evidently intended | confidence | as-written member | corrected member |
|---|---|---|---|---|---|---|
| Findmage/cont/desk.py:104-111 | Only `os.path.isdir` is tested; `os.listdir` is outside any `try`, so a directory that cannot be listed raises out of the whole search | folders `[bad, good]`, where `bad` is a directory without read permission and `good` holds `a.png`: the search raises and shows nothing | an unreadable directory is skipped like a missing one, and the other folders are still searched | medium, not executed | Enumeration.UnlistableFolderAbortsScan | Enumeration.EnumerateSkippingUnlistable |

The same loop appears at desk.py:147-154 and 193-200. `Enumeration.EnumerateCandidates` models the scan as written, and the three searches use it, so `Search.UnlistableFolderAbortsSearch` shows the whole search raising. `Enumeration.SkipsUnlistable` states the intended skipping. The corrected scan yields `Candidates`, the same specification the as-written scan yields whenever every directory can be listed (`Enumeration.ScanOutcome`). So every property proved about `Candidates` holds for the corrected scan on all inputs.
