/**
 * The pure parts of the image load/error/retry bookkeeping: looking a record
 * up by id, the two error messages of an image that failed to load, the
 * retry action's rewrite of the records, and the retry counting the error
 * handler computes.
 */
module LoadStatus {
  import opened Wrappers
  import opened Text
  import opened Catalog

  /** `images.find(img => img.id === id)`: the first record with that id, if any. */
  function FindImage(images: seq<GalleryImage>, id: nat): (r: Option<GalleryImage>)
    ensures r.Some? <==> exists i :: 0 <= i < |images| && images[i].id == id
    ensures r.Some? ==> r.value in images && r.value.id == id
  {
    if images == [] then None
    else if images[0].id == id then Some(images[0])
    else FindImage(images[1..], id)
  }

  /** The first record with the id sits at position `i` when no earlier record has that id. */
  lemma {:induction false} FindImageAt(images: seq<GalleryImage>, id: nat, i: nat)
    requires i < |images| && images[i].id == id
    requires forall j :: 0 <= j < i ==> images[j].id != id
    ensures FindImage(images, id) == Some(images[i])
  {
    if i > 0 {
      FindImageAt(images[1..], id, i - 1);
    }
  }

  /** The count the handler compares with the limit: the stored count (0 when unset) plus one. */
  function NextRetryCount(image: Option<GalleryImage>): (r: nat)
    ensures r >= 1
    ensures image.None? ==> r == 1
    ensures image.Some? ==> r == image.value.retryCount.GetOr(0) + 1
  {
    (if image.Some? then image.value.retryCount.GetOr(0) else 0) + 1
  }

  /** Errors counted up to this many attempts get the transient message. */
  const MaxRetries: nat := 3

  /** The message shown while retries remain; it names the image by its id, right after "Loading image ". */
  function TransientMessage(id: nat): (r: string)
    ensures OccursAt(r, "Loading image ", 0) && OccursAt(r, NatToString(id), |"Loading image "|)
  {
    var m := "Loading image " + NatToString(id) + "... Please wait while we retry.";
    assert OccursAt(m, "Loading image ", 0) && OccursAt(m, NatToString(id), |"Loading image "|);
    m
  }

  /**
   * The message shown once retries are exhausted; it names the image right
   * after "Unable to load image " and ends with the path to check.
   */
  function TerminalMessage(id: nat, src: string): (r: string)
    ensures OccursAt(r, "Unable to load image ", 0) && OccursAt(r, NatToString(id), |"Unable to load image "|)
    ensures OccursAt(r, src, |r| - |src|)
  {
    var p := "Unable to load image " + NatToString(id);
    var m := p + ". Please check if the image exists at " + src;
    assert OccursAt(m, "Unable to load image ", 0) && OccursAt(m, NatToString(id), |"Unable to load image "|);
    assert OccursAt(m, src, |m| - |src|);
    m
  }

  /** The message a failed download shows. */
  const DownloadFailedMessage: string := "Failed to download image. Please try again."

  /** The two messages can never be confused: they start differently and neither is empty. */
  lemma MessagesDistinct(id: nat, id2: nat, src: string)
    ensures TransientMessage(id) != TerminalMessage(id2, src)
    ensures TransientMessage(id) != "" && TerminalMessage(id2, src) != ""
    ensures TransientMessage(id) != DownloadFailedMessage && TerminalMessage(id2, src) != DownloadFailedMessage
  {
    assert TransientMessage(id)[0] == 'L';
    assert TerminalMessage(id2, src)[0] == 'U';
    assert TransientMessage(id)[1] == 'o';
    assert DownloadFailedMessage[1] == 'a';
  }

  /** The transient message names the id: equal messages mean equal ids. */
  lemma TransientNamesId(id: nat, id2: nat)
    requires TransientMessage(id) == TransientMessage(id2)
    ensures id == id2
  {
    var p := "Loading image ";
    var a, b := NatToString(id), NatToString(id2);
    var tail := "... Please wait while we retry.";
    assert TransientMessage(id) == p + (a + tail);
    assert TransientMessage(id2) == p + (b + tail);
    assert (p + (a + tail))[|p|..] == a + tail;
    assert (p + (b + tail))[|p|..] == b + tail;
    assert a == (a + tail)[..|a|];
    assert b == (b + tail)[..|b|];
  }

  /**
   * `handleImageError`'s message for `id`: transient while the stored count
   * plus one is at most 3, otherwise terminal naming the id and the record's
   * `src` (the text "undefined" stands in for a record that was not found).
   */
  function ImageErrorMessage(images: seq<GalleryImage>, id: nat): (r: string)
    ensures NextRetryCount(FindImage(images, id)) <= MaxRetries ==> r == TransientMessage(id)
    ensures NextRetryCount(FindImage(images, id)) > MaxRetries ==>
      FindImage(images, id).Some? && r == TerminalMessage(id, FindImage(images, id).value.src)
  {
    var image := FindImage(images, id);
    var retryCount := NextRetryCount(image);
    if retryCount <= MaxRetries then TransientMessage(id)
    else TerminalMessage(id, if image.Some? then image.value.src else "undefined")
  }

  /** No record stores a retry count above 0. */
  predicate NoStoredRetries(images: seq<GalleryImage>)
  {
    forall i :: 0 <= i < |images| ==> images[i].retryCount.GetOr(0) == 0
  }

  /** With no stored count, every image error gets the transient message: the terminal one is unreachable. */
  lemma ErrorIsTransient(images: seq<GalleryImage>, id: nat)
    requires NoStoredRetries(images)
    ensures ImageErrorMessage(images, id) == TransientMessage(id)
  {
    var image := FindImage(images, id);
    if image.Some? {
      var i :| 0 <= i < |images| && images[i] == image.value;
    }
  }

  /** `handleRetry`'s rewrite: every record kept in place, with `retryCount: 0`. */
  function ResetRetryCounts(images: seq<GalleryImage>): (r: seq<GalleryImage>)
    ensures |r| == |images|
    ensures forall i :: 0 <= i < |r| ==> SameEntry(r[i], images[i]) && r[i].retryCount == Some(0)
    ensures NoStoredRetries(r)
  {
    if images == [] then [] else [images[0].(retryCount := Some(0))] + ResetRetryCounts(images[1..])
  }

  /** Resetting twice is resetting once. */
  lemma {:induction false} ResetIdempotent(images: seq<GalleryImage>)
    ensures ResetRetryCounts(ResetRetryCounts(images)) == ResetRetryCounts(images)
  {
    if images != [] {
      ResetIdempotent(images[1..]);
    }
  }

  /**
   * Corrected error handling: the incremented count is written back to every
   * record with that id, so the next error on the same image sees it.
   */
  function StoreRetryCount(images: seq<GalleryImage>, id: nat, count: nat): (r: seq<GalleryImage>)
    ensures |r| == |images|
  {
    if images == [] then []
    else
      var head := if images[0].id == id then images[0].(retryCount := Some(count)) else images[0];
      [head] + StoreRetryCount(images[1..], id, count)
  }

  /** Storing touches exactly the records with that id: they get the count, all else stays. */
  lemma {:induction false} StoreRetryCountAt(images: seq<GalleryImage>, id: nat, count: nat, i: nat)
    requires i < |images|
    ensures SameEntry(StoreRetryCount(images, id, count)[i], images[i])
    ensures StoreRetryCount(images, id, count)[i].retryCount
      == if images[i].id == id then Some(count) else images[i].retryCount
  {
    if i > 0 {
      StoreRetryCountAt(images[1..], id, count, i - 1);
    }
  }

  /** The records after one image error under corrected handling. */
  function CountError(images: seq<GalleryImage>, id: nat): seq<GalleryImage>
  {
    StoreRetryCount(images, id, NextRetryCount(FindImage(images, id)))
  }

  /** The records after `k` consecutive errors on `id` under corrected handling. */
  function AfterCountedErrors(images: seq<GalleryImage>, id: nat, k: nat): seq<GalleryImage>
  {
    if k == 0 then images else CountError(AfterCountedErrors(images, id, k - 1), id)
  }

  /** Storing a count changes neither which record the search finds nor its other fields. */
  lemma {:induction false} FindAfterStore(images: seq<GalleryImage>, id: nat, count: nat)
    requires FindImage(images, id).Some?
    ensures FindImage(StoreRetryCount(images, id, count), id).Some?
    ensures SameEntry(FindImage(StoreRetryCount(images, id, count), id).value, FindImage(images, id).value)
    ensures FindImage(StoreRetryCount(images, id, count), id).value.retryCount == Some(count)
  {
    if images[0].id != id {
      FindAfterStore(images[1..], id, count);
      assert StoreRetryCount(images, id, count)[1..] == StoreRetryCount(images[1..], id, count);
    }
  }

  /** The record found for `id` is `orig` apart from its count, and its count reads as `k`. */
  predicate StoresCount(images: seq<GalleryImage>, id: nat, orig: GalleryImage, k: nat)
  {
    var found := FindImage(images, id);
    found.Some? && SameEntry(found.value, orig) && found.value.retryCount.GetOr(0) == k
  }

  /** One counted error raises the stored count of the record found for `id` by one. */
  lemma CountErrorStep(images: seq<GalleryImage>, id: nat, orig: GalleryImage, k: nat)
    requires StoresCount(images, id, orig, k)
    ensures StoresCount(CountError(images, id), id, orig, k + 1)
  {
    var found := FindImage(images, id).value;
    var next := StoreRetryCount(images, id, k + 1);
    assert CountError(images, id) == next;
    FindAfterStore(images, id, k + 1);
    var after := FindImage(next, id).value;
    assert SameEntry(after, found) && SameEntry(found, orig);
  }

  /** After `k` counted errors the record found for `id` stores `k` and is otherwise unchanged. */
  lemma {:induction false} CountedErrorsAccumulate(images: seq<GalleryImage>, id: nat, orig: GalleryImage, k: nat)
    requires StoresCount(images, id, orig, 0)
    ensures StoresCount(AfterCountedErrors(images, id, k), id, orig, k)
  {
    if k > 0 {
      CountedErrorsAccumulate(images, id, orig, k - 1);
      CountErrorStep(AfterCountedErrors(images, id, k - 1), id, orig, k - 1);
    }
  }

  /**
   * Under corrected handling, errors 1 to 3 on a present, uncounted image
   * show the transient message and the 4th and later ones the terminal
   * message with the image's `src`: the (k+1)-th error sees the records left
   * by the k before it.
   */
  lemma CountedErrorsEscalate(images: seq<GalleryImage>, id: nat, k: nat)
    requires FindImage(images, id).Some? && FindImage(images, id).value.retryCount.GetOr(0) == 0
    ensures k < MaxRetries ==>
      ImageErrorMessage(AfterCountedErrors(images, id, k), id) == TransientMessage(id)
    ensures k >= MaxRetries ==>
      ImageErrorMessage(AfterCountedErrors(images, id, k), id)
        == TerminalMessage(id, FindImage(images, id).value.src)
  {
    CountedErrorsAccumulate(images, id, FindImage(images, id).value, k);
  }
}
