/**
 * The presentation step of `MainWindow` (desk.py): `start_search` runs the search
 * thread on the raw field texts, and `display_results` filters the emitted list by
 * the slider threshold (only for an image query without a description) and shows
 * at most the spin-box count of leading entries.
 */
module Display {
  import opened Text
  import opened Enumeration
  import opened Chunks
  import opened Scoring
  import opened Ranking
  import opened Search

  /** The slider's range and start value (`setMinimum(20)`, `setMaximum(99)`, `setValue(80)`). */
  const SliderMin: int := 20
  const SliderMax: int := 99
  const SliderDefault: int := 80

  /** The result-count spin box's range and start value. */
  const MaxResultsMin: int := 1
  const MaxResultsMax: int := 50
  const MaxResultsDefault: int := 10

  /** Values the two widgets can hold. */
  predicate ValidControls(maxResults: int, slider: int)
  {
    MaxResultsMin <= maxResults <= MaxResultsMax && SliderMin <= slider <= SliderMax
  }

  /** What the result box holds: the initial text area, the empty-result label, or one card per shown result. */
  datatype Widget = TextArea | NoResultsLabel | ResultCard(path: string, score: Score)

  /** `self.slider.value() / 100.0` */
  function Threshold(slider: int): (t: real)
    ensures t * 100.0 == slider as real
    ensures SliderMin <= slider <= SliderMax ==> 0.20 <= t <= 0.99
  {
    slider as real / 100.0
  }

  /** The threshold is used only when the image field is non-blank and the description blank, after `strip`. */
  predicate ThresholdApplies(fileText: string, descriptionText: string)
  {
    Strip(fileText) != [] && Strip(descriptionText) == []
  }

  /** `[result for result in results if result[1] >= threshold]` */
  function AtLeast(results: seq<Entry>, t: real): (r: seq<Entry>)
    ensures |r| <= |results|
    ensures forall e :: e in r ==> e.score >= t
  {
    if results == [] then []
    else (if results[0].score >= t then [results[0]] else []) + AtLeast(results[1..], t)
  }

  /** The filter keeps every entry reaching the threshold, as often as it occurs, and drops the rest. */
  lemma {:induction false} AtLeastKeeps(results: seq<Entry>, t: real, e: Entry)
    ensures multiset(AtLeast(results, t))[e] == if e.score >= t then multiset(results)[e] else 0
  {
    if results != [] {
      AtLeastKeeps(results[1..], t, e);
      assert results == [results[0]] + results[1..];
    }
  }

  /** On a ranked list the filter keeps a prefix: everything it drops lies below the threshold. */
  lemma {:induction false} AtLeastOfRankedIsPrefix(results: seq<Entry>, t: real)
    requires SortedDesc(results)
    ensures |AtLeast(results, t)| <= |results|
    ensures AtLeast(results, t) == results[..|AtLeast(results, t)|]
    ensures forall i :: |AtLeast(results, t)| <= i < |results| ==> results[i].score < t
  {
    if results != [] {
      AtLeastOfRankedIsPrefix(results[1..], t);
      var rest := results[1..];
      if results[0].score < t {
        assert AtLeast(rest, t) == [];
      }
    }
  }

  /** `filtered_results`, where `applies` is whether the threshold applies (`ThresholdApplies`). */
  function Filtered(results: seq<Entry>, applies: bool, slider: int): seq<Entry>
  {
    if applies then AtLeast(results, Threshold(slider)) else results
  }

  function Cards(entries: seq<Entry>): (r: seq<Widget>)
    ensures |r| == |entries|
    ensures forall i :: 0 <= i < |entries| ==> r[i] == ResultCard(entries[i].path, entries[i].score)
  {
    seq(|entries|, i requires 0 <= i < |entries| => ResultCard(entries[i].path, entries[i].score))
  }

  /** How many cards the loop adds before `max_results` reaches zero. */
  function ShownCount(maxResults: int, available: nat): nat
  {
    if maxResults <= 0 then 0 else Min(maxResults, available)
  }

  /** The result box after `display_results`, given whether the threshold applies. */
  function Presentation(results: seq<Entry>, applies: bool, maxResults: int, slider: int): seq<Widget>
  {
    var filtered := Filtered(results, applies, slider);
    if filtered == [] then [NoResultsLabel]
    else Cards(filtered[..ShownCount(maxResults, |filtered|)])
  }

  /** What the filter passes on: entries of the results, at or above the threshold when it applies. */
  lemma FilteredShape(results: seq<Entry>, applies: bool, slider: int)
    ensures forall e :: e in Filtered(results, applies, slider) ==>
              e in results && (applies ==> e.score >= Threshold(slider))
    ensures Filtered(results, applies, slider) == [] <==>
            if applies
            then forall e :: e in results ==> e.score < Threshold(slider)
            else results == []
  {
    var t := Threshold(slider);
    var filtered := Filtered(results, applies, slider);
    if applies {
      forall e | e in filtered
        ensures e in results && e.score >= t
      {
        AtLeastKeeps(results, t, e);
      }
      if filtered != [] {
        assert filtered[0] in filtered;
      }
      forall e | e in results && e.score >= t
        ensures e in filtered
      {
        AtLeastKeeps(results, t, e);
      }
    }
  }

  /**
   * With the widgets in range the box holds between one and `maxResults` widgets;
   * it is the lone "no results" label exactly when nothing passes the filter; every
   * card shows an entry of the results, and one reaching the threshold when it applies.
   */
  lemma PresentationShape(results: seq<Entry>, applies: bool, maxResults: int, slider: int)
    requires ValidControls(maxResults, slider)
    ensures 1 <= |Presentation(results, applies, maxResults, slider)| <= maxResults
    ensures Presentation(results, applies, maxResults, slider) == [NoResultsLabel] <==>
            if applies
            then forall e :: e in results ==> e.score < Threshold(slider)
            else results == []
    ensures forall w :: w in Presentation(results, applies, maxResults, slider) && w.ResultCard? ==>
              Entry(w.path, w.score) in results &&
              (applies ==> w.score >= Threshold(slider))
  {
    var filtered := Filtered(results, applies, slider);
    var box := Presentation(results, applies, maxResults, slider);
    FilteredShape(results, applies, slider);
    if filtered != [] {
      assert box[0].ResultCard?;
    }
    forall w | w in box && w.ResultCard?
      ensures Entry(w.path, w.score) in filtered
    {
      var i :| 0 <= i < |box| && box[i] == w;
      assert Entry(w.path, w.score) == filtered[i];
    }
  }

  /**
   * When the results come ranked, the cards shown are the leading entries of the
   * ranking itself: the threshold only cuts the tail, and no result that is not
   * shown scores above one that is.
   */
  lemma ShownAreTopRanked(results: seq<Entry>, applies: bool, maxResults: int, slider: int)
    requires SortedDesc(results)
    ensures var box := Presentation(results, applies, maxResults, slider);
            box != [NoResultsLabel] ==>
              |box| <= |results| && box == Cards(results[..|box|]) &&
              forall i, j :: 0 <= i < |box| <= j < |results| ==>
                box[i].ResultCard? && box[i].score >= results[j].score
  {
    var filtered := Filtered(results, applies, slider);
    FilteredOfRankedIsPrefix(results, applies, slider);
    var k := ShownCount(maxResults, |filtered|);
    assert filtered[..k] == results[..k];
  }

  /** On ranked results the filter, whether or not the threshold applies, keeps a prefix. */
  lemma FilteredOfRankedIsPrefix(results: seq<Entry>, applies: bool, slider: int)
    requires SortedDesc(results)
    ensures |Filtered(results, applies, slider)| <= |results|
    ensures Filtered(results, applies, slider)
            == results[..|Filtered(results, applies, slider)|]
  {
    if applies {
      AtLeastOfRankedIsPrefix(results, Threshold(slider));
    }
  }

  /**
   * The two places read the query fields differently: a description of spaces selects
   * combined search, yet counts as blank for the display, so those combined results are
   * cut at the threshold.
   */
  lemma WhitespaceDescription(imagePath: string)
    requires !IsBlank(imagePath)
    ensures Dispatch(imagePath, " ") == Combined
    ensures ThresholdApplies(imagePath, " ")
  {
    assert IsBlank(" ") by {
      assert " "[0] == ' ';
    }
  }

  /** The window state the search path reads and writes. */
  class MainWindow {
    var fileText: string
    var descriptionText: string
    var maxImages: int
    var sliderValue: int
    var resultBox: seq<Widget>

    /** The spin box and the slider hold values inside the ranges the widgets enforce. */
    ghost predicate Valid()
      reads this
    {
      ValidControls(maxImages, sliderValue)
    }

    /** The fields' start values: empty texts, ten results, threshold 0.80, a box holding the text area. */
    constructor ()
      ensures Valid()
      ensures fileText == [] && descriptionText == []
      ensures maxImages == MaxResultsDefault && sliderValue == SliderDefault
      ensures resultBox == [TextArea]
    {
      fileText, descriptionText := [], [];
      maxImages, sliderValue := MaxResultsDefault, SliderDefault;
      resultBox := [TextArea];
    }

    /** `display_results`: empty the box, then add the label or the cards. */
    method DisplayResults(results: seq<Entry>)
      requires Valid()
      modifies this`resultBox
      ensures Valid()
      ensures resultBox == Presentation(results, ThresholdApplies(fileText, descriptionText), maxImages, sliderValue)
      ensures 1 <= |resultBox| <= maxImages
    {
      var maxResults := maxImages;
      while resultBox != []
        decreases |resultBox|
      {
        resultBox := resultBox[1..];
      }
      var filtered := Filtered(results, ThresholdApplies(fileText, descriptionText), sliderValue);
      if filtered == [] {
        resultBox := resultBox + [NoResultsLabel];
      } else {
        var i := 0;
        while i < |filtered|
          invariant 0 <= i <= |filtered|
          invariant maxResults == maxImages - i
          invariant i == 0 || i <= maxImages
          invariant resultBox == Cards(filtered[..i])
        {
          if maxResults <= 0 {
            break;
          }
          maxResults := maxResults - 1;
          resultBox := resultBox + [ResultCard(filtered[i].path, filtered[i].score)];
          i := i + 1;
        }
        assert i == ShownCount(maxImages, |filtered|);
        assert resultBox == Cards(filtered[..ShownCount(maxImages, |filtered|)]);
      }
      PresentationShape(results, ThresholdApplies(fileText, descriptionText), maxImages, sliderValue);
    }

    /**
     * `clear_upload_and_description`: empty both query fields, so the next search has
     * no query and no threshold applies.
     */
    method Clear()
      modifies this`fileText, this`descriptionText
      ensures fileText == [] && descriptionText == []
      ensures Dispatch(fileText, descriptionText) == NoQuery
      ensures !ThresholdApplies(fileText, descriptionText)
    {
      fileText, descriptionText := [], [];
    }

    /**
     * `start_search` with the `results_ready` connection: run the search on the raw
     * field texts and show what it emits; a search that raises emits nothing, and the
     * box keeps what it held.
     */
    method StartSearch<E>(p: Provider<E>, fs: FileSystem, folders: seq<string>) returns (out: Outcome)
      requires Valid()
      modifies this`resultBox
      ensures Valid()
      ensures RunSpec(p, fs, fileText, descriptionText, folders, out)
      ensures out.Done? ==> resultBox == Presentation(out.results, ThresholdApplies(fileText, descriptionText), maxImages, sliderValue)
      ensures out.Raised? ==> resultBox == old(resultBox)
    {
      out := Run(p, fs, fileText, descriptionText, folders);
      if out.Done? {
        DisplayResults(out.results);
      }
    }
  }
}
