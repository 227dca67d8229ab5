/** The text-slide routes of slidesController.js. `/upload-slides`
    validates the submitted slides, sorts the request array in place by
    ascending `order`, and stores it as a new document; `/get-slides`
    answers with the slides of the last stored document. A falsy `text` is
    the empty string and an `order` left undefined is `None`. */
module SlidesController {
  import opened Common

  datatype SlideInput = SlideInput(text: string, order: Option<int>)

  /** The JSON reply `{ message }` with its HTTP status. */
  datatype Reply = Reply(status: int, message: string)

  /** `!slide.text || slide.order === undefined` is false. An order of 0
      is accepted. */
  predicate ValidSlide(s: SlideInput) {
    s.text != "" && s.order.Some?
  }

  predicate AllValid(slides: seq<SlideInput>) {
    forall i :: 0 <= i < |slides| ==> ValidSlide(slides[i])
  }

  /** The two guards of `/upload-slides`: `None` when the upload may go on,
      otherwise the 400 reply. `slides` is `None` when the field is absent. */
  function Validate(slides: Option<seq<SlideInput>>): (r: Option<Reply>)
    ensures r.None? <==> slides.Some? && |slides.value| > 0 && AllValid(slides.value)
    ensures (slides.None? || slides.value == []) ==>
              r == Some(Reply(400, "Please provide slides to upload"))
    ensures slides.Some? && slides.value != [] && !AllValid(slides.value) ==>
              r == Some(Reply(400, "All slides must have text and order"))
  {
    if slides.None? || |slides.value| == 0 then Some(Reply(400, "Please provide slides to upload"))
    else if exists i :: 0 <= i < |slides.value| && !ValidSlide(slides.value[i]) then
      Some(Reply(400, "All slides must have text and order"))
    else None
  }

  /** A single invalid slide rejects the whole upload, wherever it sits. */
  lemma OneInvalidRejectsAll(before: seq<SlideInput>, bad: SlideInput, after: seq<SlideInput>)
    requires !ValidSlide(bad)
    ensures Validate(Some(before + [bad] + after)) == Some(Reply(400, "All slides must have text and order"))
  {
    assert (before + [bad] + after)[|before|] == bad;
  }

  /** The sort key: the order of a validated slide (sorting happens only
      after validation, so the 0 for a missing order is never used). */
  function Key(s: SlideInput): int {
    if s.order.Some? then s.order.value else 0
  }

  /** Ascending by `order`, the result of `sort((a, b) => a.order - b.order)`. */
  predicate SortedByOrder(s: seq<SlideInput>) {
    forall p, q :: 0 <= p < q < |s| ==> Key(s[p]) <= Key(s[q])
  }

  /** A permutation of valid slides is valid. */
  lemma PermutationKeepsValid(s: seq<SlideInput>, t: seq<SlideInput>)
    requires AllValid(s) && multiset(s) == multiset(t)
    ensures AllValid(t)
  {
    forall i | 0 <= i < |t|
      ensures ValidSlide(t[i])
    {
      assert t[i] in multiset(t);
      assert t[i] in multiset(s);
      var j :| 0 <= j < |s| && s[j] == t[i];
    }
  }

  /** Exchanges `a[j - 1]` and `a[j]`. */
  method Swap(a: array<SlideInput>, j: int)
    requires 0 < j < a.Length
    modifies a
    ensures a[..] == old(a[..])[j - 1 := old(a[j])][j := old(a[j - 1])]
    ensures multiset(a[..]) == multiset(old(a[..]))
  {
    a[j - 1], a[j] := a[j], a[j - 1];
  }

  /** One insertion step: `a[..i]` is sorted, and `a[i]` is moved down into
      place, so that `a[..i + 1]` is sorted. */
  method InsertDown(a: array<SlideInput>, i: int)
    requires 0 <= i < a.Length
    requires forall p, q :: 0 <= p < q < i ==> Key(a[p]) <= Key(a[q])
    modifies a
    ensures multiset(a[..]) == multiset(old(a[..]))
    ensures forall p, q :: 0 <= p < q <= i ==> Key(a[p]) <= Key(a[q])
  {
    var j := i;
    while j > 0 && Key(a[j - 1]) > Key(a[j])
      invariant 0 <= j <= i
      invariant multiset(a[..]) == multiset(old(a[..]))
      invariant forall p, q :: 0 <= p < q <= i && p != j && q != j ==> Key(a[p]) <= Key(a[q])
      invariant forall q :: j < q <= i ==> Key(a[j]) < Key(a[q])
      invariant 0 < j < i ==> Key(a[j - 1]) <= Key(a[j + 1])
    {
      Swap(a, j);
      j := j - 1;
    }
  }

  /** `slides.sort(...)`: an insertion sort, in place, of validated
      slides. */
  method SortSlides(a: array<SlideInput>)
    modifies a
    ensures multiset(a[..]) == multiset(old(a[..]))
    ensures SortedByOrder(a[..])
  {
    var i := 0;
    while i < a.Length
      invariant 0 <= i <= a.Length
      invariant multiset(a[..]) == multiset(old(a[..]))
      invariant forall p, q :: 0 <= p < q < i ==> Key(a[p]) <= Key(a[q])
    {
      InsertDown(a, i);
      i := i + 1;
    }
  }

  /** The reply of `/get-slides`. */
  datatype SlidesReply = NoSlides(status: int, message: string) | Latest(slides: seq<SlideInput>)

  /** `/get-slides` over the stored documents, oldest first. */
  function GetSlides(documents: seq<seq<SlideInput>>): (r: SlidesReply)
    ensures documents == [] <==> r == NoSlides(404, "No slides found")
    ensures documents != [] ==> r == Latest(documents[|documents| - 1])
  {
    if |documents| == 0 then NoSlides(404, "No slides found")
    else Latest(documents[|documents| - 1])
  }

  /** The last upload is what `/get-slides` answers, whatever came before. */
  lemma GetSlidesAfterUpload(documents: seq<seq<SlideInput>>, uploaded: seq<SlideInput>)
    ensures GetSlides(documents + [uploaded]) == Latest(uploaded)
  {
  }

  /** The `TextSlide` collection. */
  class SlideStore {
    var documents: seq<seq<SlideInput>>

    constructor ()
      ensures documents == []
    {
      documents := [];
    }

    /** `/upload-slides`. `slides` is `null` when the field is absent. On
        the two 400 paths nothing is sorted or stored; otherwise the request
        array is sorted in place and stored as a new document. */
    method UploadSlides(slides: array?<SlideInput>) returns (reply: Reply)
      modifies this, slides
      ensures var input := if slides == null then None else Some(old(slides[..]));
              Validate(input).Some? ==>
                reply == Validate(input).value && documents == old(documents) &&
                (slides != null ==> slides[..] == old(slides[..]))
      ensures var input := if slides == null then None else Some(old(slides[..]));
              Validate(input).None? ==>
                slides != null && reply == Reply(200, "Slides uploaded successfully") &&
                multiset(slides[..]) == multiset(old(slides[..])) &&
                AllValid(slides[..]) && SortedByOrder(slides[..]) &&
                documents == old(documents) + [slides[..]]
    {
      var input := if slides == null then None else Some(slides[..]);
      var rejected := Validate(input);
      if rejected.Some? {
        return rejected.value;
      }
      SortSlides(slides);
      PermutationKeepsValid(old(slides[..]), slides[..]);
      documents := documents + [slides[..]];
      reply := Reply(200, "Slides uploaded successfully");
    }
  }
}
