/** Telling the four kinds of IB result PDF apart by a header that occurs
    in the text of their first page (IBResultProcessor.detect_file_type). */
module Classifier {
  import opened Wrappers
  import opened Text

  const ResultsSummary := "Results summary"
  const SubjectResults := "Subject Results"
  const ExtendedEssay := "(EXTENDED ESSAY)"
  const TheoryOfKnowledge := "(THEORY OF KNOWLEDGE)"

  /** The keys of file_type_header_map, in the order the search tries them. */
  const Markers: seq<string> := [ResultsSummary, ExtendedEssay, TheoryOfKnowledge, SubjectResults]

  /** The first marker of ms that is a substring of text. */
  function FirstMarker(ms: seq<string>, text: string): (r: Option<string>)
    ensures r.Some? ==> exists i :: 0 <= i < |ms| && ms[i] == r.value && Contains(text, ms[i])
                                    && forall j :: 0 <= j < i ==> !Contains(text, ms[j])
    ensures r.None? <==> (forall i :: 0 <= i < |ms| ==> !Contains(text, ms[i]))
  {
    if ms == [] then None
    else if Contains(text, ms[0]) then Some(ms[0])
    else
      var r := FirstMarker(ms[1..], text);
      if r.Some? then
        var i :| 0 <= i < |ms[1..]| && ms[1..][i] == r.value && Contains(text, ms[1..][i])
                 && forall j :: 0 <= j < i ==> !Contains(text, ms[1..][j]);
        assert ms[i + 1] == r.value;
        assert forall j :: 0 <= j < i + 1 ==> !Contains(text, ms[j]) by {
          forall j | 0 <= j < i + 1 ensures !Contains(text, ms[j]) {
            if j > 0 { assert ms[j] == ms[1..][j - 1]; }
          }
        }
        r
      else
        assert forall i :: 0 <= i < |ms| ==> !Contains(text, ms[i]) by {
          forall i | 0 <= i < |ms| ensures !Contains(text, ms[i]) {
            if i > 0 { assert ms[i] == ms[1..][i - 1]; }
          }
        }
        r
  }

  /** The file type of a PDF given the text of its pages ("" for a page
      without text): None without pages, else the first marker found on the
      first page. */
  function Classify(pages: seq<string>): Option<string> {
    if pages == [] then None else FirstMarker(Markers, pages[0])
  }

  /** detect_file_type: an early-return search over the markers. */
  method DetectFileType(pages: seq<string>) returns (r: Option<string>)
    ensures pages == [] ==> r.None?
    ensures r.Some? ==> r.value in Markers && Contains(pages[0], r.value)
    ensures r == Classify(pages)
  {
    if pages == [] {
      return None;
    }
    var text := pages[0];
    for i := 0 to |Markers|
      invariant forall j :: 0 <= j < i ==> !Contains(text, Markers[j])
    {
      if Contains(text, Markers[i]) {
        FirstMarkerAt(Markers, text, i);
        return Some(Markers[i]);
      }
    }
    return None;
  }

  /** The marker at i is the answer when it occurs and none before it does. */
  lemma {:induction false} FirstMarkerAt(ms: seq<string>, text: string, i: nat)
    requires i < |ms| && Contains(text, ms[i])
    requires forall j :: 0 <= j < i ==> !Contains(text, ms[j])
    ensures FirstMarker(ms, text) == Some(ms[i])
  {
    if i > 0 {
      FirstMarkerAt(ms[1..], text, i - 1);
    }
  }

  /** A marker found on the first page wins over every marker after it in
      the search order: the answer is that marker or one tried before it. */
  lemma ClassifyPriority(pages: seq<string>, i: nat)
    requires pages != [] && i < |Markers| && Contains(pages[0], Markers[i])
    ensures Classify(pages).Some?
    ensures exists j :: 0 <= j <= i && Classify(pages) == Some(Markers[j])
  {
    var r := FirstMarker(Markers, pages[0]);
    var k :| 0 <= k < |Markers| && Markers[k] == r.value && Contains(pages[0], Markers[k])
             && forall j :: 0 <= j < k ==> !Contains(pages[0], Markers[j]);
    assert k <= i;
  }

  /** An Extended Essay report that also says "Subject Results" is classified
      as an Extended Essay report. */
  lemma ExtendedEssayBeforeSubjectResults(pages: seq<string>)
    requires pages != [] && Contains(pages[0], ExtendedEssay) && Contains(pages[0], SubjectResults)
    requires !Contains(pages[0], ResultsSummary)
    ensures Classify(pages) == Some(ExtendedEssay)
  {
    FirstMarkerAt(Markers, pages[0], 1);
  }

  /** The same for a Theory of Knowledge report. */
  lemma TheoryOfKnowledgeBeforeSubjectResults(pages: seq<string>)
    requires pages != [] && Contains(pages[0], TheoryOfKnowledge) && Contains(pages[0], SubjectResults)
    requires !Contains(pages[0], ResultsSummary) && !Contains(pages[0], ExtendedEssay)
    ensures Classify(pages) == Some(TheoryOfKnowledge)
  {
    FirstMarkerAt(Markers, pages[0], 2);
  }

  /** No pages, or no marker on the first page, leaves the type undetected. */
  lemma UnclassifiedWithoutMarker(pages: seq<string>)
    requires pages == [] || forall m :: m in Markers ==> !Contains(pages[0], m)
    ensures Classify(pages).None?
  {
    if pages != [] {
      assert forall i :: 0 <= i < |Markers| ==> !Contains(pages[0], Markers[i]);
    }
  }
}
