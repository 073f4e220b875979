/** The upload guard on image files: the accepted media types and the size
    limit, checked in that order. */
module ImageCompression {
  import opened Wrappers

  /** The two properties of a browser `File` the guard reads. */
  datatype ImageFile = ImageFile(mimeType: string, size: int)

  const VALID_TYPES: seq<string> := ["image/jpeg", "image/jpg", "image/png", "image/webp"]

  /** 10 MiB. */
  const MAX_SIZE: int := 10 * 1024 * 1024

  const INVALID_TYPE: string := "Invalid file type. Please upload JPEG, PNG, or WebP images."
  const TOO_LARGE: string := "File size too large. Maximum size is 10MB."

  /** `validateImageFile(file)`: a thrown error becomes `Failure` with its
      message; an accepted file gives `true`. */
  function ValidateImageFile(file: ImageFile): (r: Result<bool>)
    ensures r.Success? <==> file.mimeType in VALID_TYPES && file.size <= MAX_SIZE
    ensures r.Success? ==> r.value
    ensures r.Failure? ==> r.message == if file.mimeType in VALID_TYPES then TOO_LARGE else INVALID_TYPE
  {
    if file.mimeType !in VALID_TYPES then Failure(INVALID_TYPE)
    else if file.size > MAX_SIZE then Failure(TOO_LARGE)
    else Success(true)
  }

  /** Exactly 10 MiB passes and one byte more fails; a GIF is refused
      whatever its size, and a file failing both checks gets the type
      message. */
  lemma ImageFileBoundaries(size: int)
    ensures ValidateImageFile(ImageFile("image/png", MAX_SIZE)) == Success(true)
    ensures ValidateImageFile(ImageFile("image/png", MAX_SIZE + 1)) == Failure(TOO_LARGE)
    ensures ValidateImageFile(ImageFile("image/gif", size)) == Failure(INVALID_TYPE)
    ensures MAX_SIZE == 10485760
  {
    assert "image/gif" != "image/jpeg" && "image/gif" != "image/jpg";
    assert "image/gif" != "image/png" && "image/gif" != "image/webp";
    assert "image/png" == VALID_TYPES[2];
  }
}
