/** The uploaded images: the list of processed images, the one being worked on,
    and the processing flag and error. */
module ImageSlice {
  import opened Wrappers

  /** A processed image: its id (a timestamp), its object URL and its size. The
      file and the canvas it was drawn on are not part of this model. */
  datatype ImageRecord = ImageRecord(id: int, url: string, width: nat, height: nat)

  /** `images.filter(img => img.id !== id)`. */
  function RemoveId(images: seq<ImageRecord>, id: int): seq<ImageRecord>
  {
    if images == [] then []
    else (if images[0].id != id then [images[0]] else []) + RemoveId(images[1..], id)
  }

  /** Exactly the images with another id survive. */
  lemma {:induction false} RemoveIdMembers(images: seq<ImageRecord>, id: int)
    ensures forall img :: img in RemoveId(images, id) <==> img in images && img.id != id
  {
    if images != [] {
      RemoveIdMembers(images[1..], id);
      assert images == [images[0]] + images[1..];
    }
  }

  /** Filtering a concatenation filters each part and keeps them in order: the
      survivors stay in their original order. */
  lemma {:induction false} RemoveIdAppend(a: seq<ImageRecord>, b: seq<ImageRecord>, id: int)
    ensures RemoveId(a + b, id) == RemoveId(a, id) + RemoveId(b, id)
    decreases |a|
  {
    if a != [] {
      var rest := a[1..];
      RemoveIdAppend(rest, b, id);
      var ab := a + b;
      assert ab[0] == a[0] && ab[1..] == rest + b;
    } else {
      assert a + b == b;
    }
  }

  /** Removing an id no image has changes nothing. */
  lemma {:induction false} RemoveIdAbsent(images: seq<ImageRecord>, id: int)
    requires forall i :: 0 <= i < |images| ==> images[i].id != id
    ensures RemoveId(images, id) == images
  {
    if images != [] {
      RemoveIdAbsent(images[1..], id);
    }
  }

  /** Removing twice is removing once. */
  lemma RemoveIdIdempotent(images: seq<ImageRecord>, id: int)
    ensures RemoveId(RemoveId(images, id), id) == RemoveId(images, id)
  {
    var r := RemoveId(images, id);
    RemoveIdMembers(images, id);
    assert forall i :: 0 <= i < |r| ==> r[i] in r;
    RemoveIdAbsent(r, id);
  }

  class ImageState {
    var images: seq<ImageRecord>
    var currentImage: Option<ImageRecord>
    var isProcessing: bool
    var error: Option<string>

    /** While an image is being processed no error is shown. */
    predicate Valid()
      reads this
    {
      isProcessing ==> error.None?
    }

    constructor ()
      ensures Valid()
      ensures images == [] && currentImage.None? && !isProcessing && error.None?
    {
      images := [];
      currentImage := None;
      isProcessing := false;
      error := None;
    }

    /** `setCurrentImage`: only the current image changes. */
    method SetCurrentImage(image: Option<ImageRecord>)
      modifies this
      requires Valid()
      ensures Valid()
      ensures currentImage == image
      ensures images == old(images) && isProcessing == old(isProcessing) && error == old(error)
    {
      currentImage := image;
    }

    /** `removeImage`: every image with the id goes; the current image is cleared
        exactly when it has that id. */
    method RemoveImage(id: int)
      modifies this
      requires Valid()
      ensures Valid()
      ensures images == RemoveId(old(images), id)
      ensures old(currentImage).Some? && old(currentImage).value.id == id ==> currentImage.None?
      ensures !(old(currentImage).Some? && old(currentImage).value.id == id) ==> currentImage == old(currentImage)
      ensures isProcessing == old(isProcessing) && error == old(error)
    {
      images := RemoveId(images, id);
      if currentImage.Some? && currentImage.value.id == id {
        currentImage := None;
      }
    }

    /** `processImage.pending`. */
    method ProcessImagePending()
      modifies this
      requires Valid()
      ensures Valid()
      ensures isProcessing && error.None?
      ensures images == old(images) && currentImage == old(currentImage)
    {
      isProcessing := true;
      error := None;
    }

    /** `processImage.fulfilled`: the image is appended and becomes current. */
    method ProcessImageFulfilled(image: ImageRecord)
      modifies this
      requires Valid()
      ensures Valid()
      ensures !isProcessing
      ensures images == old(images) + [image] && currentImage == Some(image)
      ensures error == old(error)
    {
      isProcessing := false;
      images := images + [image];
      currentImage := Some(image);
    }

    /** `processImage.rejected`: the error message is kept. */
    method ProcessImageRejected(message: string)
      modifies this
      requires Valid()
      ensures Valid()
      ensures !isProcessing && error == Some(message)
      ensures images == old(images) && currentImage == old(currentImage)
    {
      isProcessing := false;
      error := Some(message);
    }
  }
}
