/**
  The file-name check of the shift photo uploads, `_allowed_image`
  (app.py:3400-3404), against `ALLOWED_IMAGE_EXTENSIONS` (app.py:3070).
*/
module Uploads {
  import opened Wrappers
  import opened Text
  import opened Hosts

  const ALLOWED_IMAGE_EXTENSIONS: set<string> := {"png", "jpg", "jpeg", "gif", "webp", "heic", "heif"}

  /** A name with a dot whose text after the last dot is, in lower case, an image extension. */
  function AllowedImage(filename: Option<string>): bool {
    filename.Some? && filename.value != [] && '.' in filename.value
    && Lower(LastLabel(filename.value)) in ALLOWED_IMAGE_EXTENSIONS
  }

  /**
    "name.ext" is accepted exactly when `ext` is an image extension in any
    case, whatever the name holds (dots included); a missing name or one
    without a dot is refused.
  */
  lemma AllowedImageSpec(name: string, ext: string, bare: string)
    requires '.' !in ext
    requires '.' !in bare
    ensures AllowedImage(Some(name + "." + ext)) <==> Lower(ext) in ALLOWED_IMAGE_EXTENSIONS
    ensures AllowedImage(Some(name + "." + Upper(ext))) == AllowedImage(Some(name + "." + ext))
    ensures !AllowedImage(Some(bare)) && !AllowedImage(None)
  {
    LastLabelAfterDot(name, ext);
    LastLabelAfterDot(name, Upper(ext));
    assert '.' !in Upper(ext) by {
      forall i | 0 <= i < |ext| ensures Upper(ext)[i] != '.' {
        assert ext[i] != '.';
      }
    }
    assert (name + "." + ext)[|name|] == '.';
    assert (name + "." + Upper(ext))[|name|] == '.';
    LowerOfUpper(ext);
  }
}
