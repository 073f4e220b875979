/** Delivery URLs of the image host: the transformation segment that asks
    for a width, a quality and a format is inserted right after the
    `/upload/` path segment. */
module Cloudinary {
  import opened Wrappers
  import opened Text
  import opened Js

  const UPLOAD: string := "/upload/"

  /** `${v}` for an option, or the destructuring default when the option
      is `undefined`. */
  function OptionText(options: Record, key: string, default: string): string
  {
    var v := Get(options, key);
    if v == Undefined then default else ToStr(v)
  }

  /** `w_${width},q_${quality},f_${format}` with the defaults 800, auto
      and auto. */
  function Transformation(options: Record): string
  {
    "w_" + OptionText(options, "width", "800") +
    ",q_" + OptionText(options, "quality", "auto") +
    ",f_" + OptionText(options, "format", "auto")
  }

  /** `getOptimizedImageUrl(url, options)`; `None` is a missing URL. Only a
      non-empty URL that mentions the host and splits into exactly two
      pieces around `/upload/` is rewritten. */
  function GetOptimizedImageUrl(url: Option<string>, options: Record): (r: Option<string>)
    ensures url.None? ==> r.None?
    ensures url.Some? && (url.value == [] || !Contains(url.value, "cloudinary")) ==> r == url
    ensures url.Some? && !Contains(url.value, UPLOAD) ==> r == url
    ensures url.Some? ==> r.Some?
  {
    match url
    case None => None
    case Some(u) =>
      if u == [] || !Contains(u, "cloudinary") then url
      else
        var parts := Split(u, UPLOAD);
        SplitSingle(u, UPLOAD);
        if |parts| == 2 then Some(parts[0] + UPLOAD + Transformation(options) + "/" + parts[1])
        else url
  }

  /** With a single occurrence of `/upload/`, the transformation and a
      slash are inserted right after it, and deleting them gives the
      original URL back. */
  lemma InsertAfterSingleUpload(u: string, options: Record, i: int)
    requires Contains(u, "cloudinary")
    requires Occurs(u, UPLOAD, i)
    requires forall j :: j != i ==> !Occurs(u, UPLOAD, j)
    ensures var r := GetOptimizedImageUrl(Some(u), options).value;
      var t := Transformation(options);
      r == u[..i + |UPLOAD|] + t + "/" + u[i + |UPLOAD|..] &&
      r[..i + |UPLOAD|] + r[i + |UPLOAD| + |t| + 1..] == u
  {
    var rest := u[i + |UPLOAD|..];
    assert IndexFrom(u, UPLOAD, 0) == i;
    assert !Contains(rest, UPLOAD) by {
      assert u[i + |UPLOAD|..|u|] == rest;
      forall j | Occurs(rest, UPLOAD, j) ensures false {
        OccursInSlice(u, UPLOAD, i + |UPLOAD|, |u|, j);
      }
    }
    SplitSingle(rest, UPLOAD);
    var parts := Split(u, UPLOAD);
    assert parts == [u[..i]] + Split(rest, UPLOAD);
    assert Split(rest, UPLOAD) == [rest] by {
      assert Join(Split(rest, UPLOAD), UPLOAD) == rest;
    }
    assert u[..i + |UPLOAD|] == u[..i] + UPLOAD by {
      assert u[i..i + |UPLOAD|] == UPLOAD;
    }
    var t := Transformation(options);
    var r := u[..i + |UPLOAD|] + t + "/" + rest;
    assert r[..i + |UPLOAD|] == u[..i + |UPLOAD|];
    assert r[i + |UPLOAD| + |t| + 1..] == rest;
  }

  /** Two separate occurrences of `/upload/` split the URL into three or
      more pieces, so it is returned unchanged. */
  lemma TwoUploadsUnchanged(u: string, options: Record, j: int)
    requires Contains(u, "cloudinary")
    requires IndexFrom(u, UPLOAD, 0) != -1
    requires j >= IndexFrom(u, UPLOAD, 0) + |UPLOAD| && Occurs(u, UPLOAD, j)
    ensures GetOptimizedImageUrl(Some(u), options) == Some(u)
  {
    var i := IndexFrom(u, UPLOAD, 0);
    var rest := u[i + |UPLOAD|..];
    var k := j - i - |UPLOAD|;
    assert Occurs(rest, UPLOAD, k) by {
      assert rest[k..k + |UPLOAD|] == u[j..j + |UPLOAD|];
    }
    SplitSingle(rest, UPLOAD);
    assert |Split(u, UPLOAD)| == 1 + |Split(rest, UPLOAD)|;
  }

  /** The options `getThumbnailUrl` passes on. */
  function ThumbnailOptions(size: Value): Record
  {
    map["width" := if size == Undefined then Num(300) else size, "quality" := Str("auto"), "format" := Str("auto")]
  }

  /** `getThumbnailUrl(url, size)`: width `size` (300 when not given),
      quality and format auto. A missing, empty or foreign URL, and one
      without `/upload/`, comes back unchanged. */
  function GetThumbnailUrl(url: Option<string>, size: Value): (r: Option<string>)
    ensures url.None? ==> r.None?
    ensures url.Some? ==> r.Some?
    ensures url.Some? && (url.value == [] || !Contains(url.value, "cloudinary") || !Contains(url.value, UPLOAD)) ==> r == url
  {
    GetOptimizedImageUrl(url, ThumbnailOptions(size))
  }

  /** A host URL with a single `/upload/` at `i` gets the thumbnail
      transformation right after it: `w_300,q_auto,f_auto/` by default,
      the given size's text as the width otherwise. */
  lemma ThumbnailInserted(u: string, size: Value, i: int)
    requires Contains(u, "cloudinary")
    requires Occurs(u, UPLOAD, i)
    requires forall j :: j != i ==> !Occurs(u, UPLOAD, j)
    ensures var width := if size == Undefined then "300" else ToStr(size);
      GetThumbnailUrl(Some(u), size) == Some(u[..i + 8] + "w_" + width + ",q_auto,f_auto/" + u[i + 8..])
  {
    var width := if size == Undefined then "300" else ToStr(size);
    ThumbnailTransformation(size, width);
    ThumbnailAfterUpload(u, size, i);
    InsertedText(u[..i + 8], width, u[i + 8..]);
  }

  lemma ThumbnailTransformation(size: Value, width: string)
    requires width == if size == Undefined then "300" else ToStr(size)
    ensures Transformation(ThumbnailOptions(size)) == "w_" + width + ",q_auto,f_auto"
  {
    ThumbnailOptionTexts(size);
    TransformationText(ThumbnailOptions(size), width);
  }

  lemma ThumbnailAfterUpload(u: string, size: Value, i: int)
    requires Contains(u, "cloudinary")
    requires Occurs(u, UPLOAD, i)
    requires forall j :: j != i ==> !Occurs(u, UPLOAD, j)
    ensures GetThumbnailUrl(Some(u), size) == Some(u[..i + 8] + Transformation(ThumbnailOptions(size)) + "/" + u[i + 8..])
  {
    InsertAfterSingleUpload(u, ThumbnailOptions(size), i);
    assert |UPLOAD| == 8;
  }

  lemma InsertedText(front: string, width: string, back: string)
    ensures front + ("w_" + width + ",q_auto,f_auto") + "/" + back == front + "w_" + width + ",q_auto,f_auto/" + back
  {
  }

  /** The default transformations: 800 wide for a full image, 300 for a
      thumbnail, quality and format left to the host. */
  lemma DefaultTransformations()
    ensures Transformation(map[]) == "w_800,q_auto,f_auto"
    ensures Transformation(ThumbnailOptions(Undefined)) == "w_300,q_auto,f_auto"
  {
    assert Transformation(map[]) == "w_800,q_auto,f_auto" by {
      assert OptionText(map[], "width", "800") == "800";
      assert OptionText(map[], "quality", "auto") == "auto";
      assert OptionText(map[], "format", "auto") == "auto";
      TransformationText(map[], "800");
    }
    assert Transformation(ThumbnailOptions(Undefined)) == "w_300,q_auto,f_auto" by {
      ThumbnailOptionTexts(Undefined);
      TransformationText(ThumbnailOptions(Undefined), "300");
    }
  }

  /** With quality and format left to the host, the transformation is the
      width's text between "w_" and ",q_auto,f_auto". */
  lemma TransformationText(options: Record, width: string)
    requires OptionText(options, "width", "800") == width
    requires OptionText(options, "quality", "auto") == "auto"
    requires OptionText(options, "format", "auto") == "auto"
    ensures Transformation(options) == "w_" + width + ",q_auto,f_auto"
  {
    assert ",q_" + "auto" + ",f_" + "auto" == ",q_auto,f_auto";
  }

  lemma ThumbnailOptionTexts(size: Value)
    ensures var options := ThumbnailOptions(size);
      && OptionText(options, "width", "800") == (if size == Undefined then "300" else ToStr(size))
      && OptionText(options, "quality", "auto") == "auto"
      && OptionText(options, "format", "auto") == "auto"
  {
    assert IntToString(300) == "300" by {
      assert NatToString(300) == "300";
    }
  }
}
