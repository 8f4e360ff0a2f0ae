/** The file-name test of `list_downloaded_images`: a file counts as a
    downloaded image when its name, lower-cased, ends with one of the image
    extensions. */
module Downloads {
  import opened Strings

  const ImageExtensions: seq<string> := [".png", ".jpg", ".jpeg", ".gif"]

  predicate IsImageFile(name: string) {
    exists ext :: ext in ImageExtensions && EndsWith(Lower(name), ext)
  }

  /** Any name ending with an image extension, written in any mix of cases,
      is an image file. */
  lemma AcceptsAnyCase(stem: string, ext: string, written: string)
    requires ext in ImageExtensions && Lower(written) == ext
    ensures IsImageFile(stem + written)
  {
    LowerConcat(stem, written);
    assert Lower(stem + written)[|Lower(stem)|..] == ext;
  }

  /** The test ignores case: a name and its lower-case form are judged alike. */
  lemma IgnoresCase(name: string)
    ensures IsImageFile(name) <==> IsImageFile(Lower(name))
  {
    LowerIdempotent(name);
  }

  /** Every extension starts with a dot, so a name without one is never an
      image file. */
  lemma {:induction false} RejectsWithoutDot(name: string)
    requires forall i :: 0 <= i < |name| ==> name[i] != '.'
    ensures !IsImageFile(name)
  {
    forall ext | ext in ImageExtensions ensures !EndsWith(Lower(name), ext) {
      assert ext[0] == '.';
      if |ext| <= |name| {
        var i := |name| - |ext|;
        assert Lower(name)[i] == LowerChar(name[i]) != '.';
        assert Lower(name)[i..][0] != ext[0];
      }
    }
  }

  lemma AcceptsExamples()
    ensures IsImageFile("photo.JPG") && IsImageFile("a.jpeg")
  {
    assert EndsWith(Lower("photo.JPG"), ".jpg");
    assert EndsWith(Lower("a.jpeg"), ".jpeg");
  }

  /** The extension has to be at the very end: a video, or an image packed in
      an archive, is not counted. */
  lemma RejectsExamples()
    ensures !IsImageFile("clip.mp4") && !IsImageFile("pics.png.zip")
  {
    assert Lower("clip.mp4") == "clip.mp4";
    assert Lower("pics.png.zip") == "pics.png.zip";
  }
}
