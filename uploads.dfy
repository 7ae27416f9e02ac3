/** allowed_file: the extension whitelist applied to uploaded room images. */
module Uploads {
  import opened Wrappers
  import opened Text

  /** ALLOWED_EXTENSIONS. */
  const AllowedExtensions: set<string> := {"png", "jpg", "jpeg", "gif"}

  /** filename.rsplit(".", 1)[1]: the text after the last '.', or None when
      the name has no '.'. */
  function AfterLastDot(s: string): (r: Option<string>)
    ensures r.None? <==> '.' !in s
    ensures r.Some? ==> |r.value| < |s| && s[|s| - |r.value| - 1] == '.'
    ensures r.Some? ==> r.value == s[|s| - |r.value|..] && '.' !in r.value
  {
    if |s| == 0 then None
    else if s[|s| - 1] == '.' then Some([])
    else
      match AfterLastDot(s[..|s| - 1])
      case None => None
      case Some(t) => Some(t + [s[|s| - 1]])
  }

  /** allowed_file(filename). An allowed name has a '.', does not end in
      one, and has at least four characters (".gif" is the shortest). */
  predicate AllowedFile(filename: string)
    ensures AllowedFile(filename) ==> '.' in filename && filename[|filename| - 1] != '.'
    ensures AllowedFile(filename) ==> |filename| >= 4
  {
    match AfterLastDot(filename)
    case None => false
    case Some(ext) => Lower(ext) in AllowedExtensions
  }

  /** A '.' with no '.' after it is the last one: what follows it is what
      rsplit(".", 1) returns as the extension. */
  lemma LastDotIsUnique(filename: string, i: nat)
    requires i < |filename| && filename[i] == '.' && '.' !in filename[i + 1..]
    ensures AfterLastDot(filename) == Some(filename[i + 1..])
  {
  }

  /** A file is allowed exactly when its name has a '.' and the text after
      the last '.', lower-cased, is one of the allowed extensions. */
  lemma AllowedFileIff(filename: string)
    ensures AllowedFile(filename) <==>
            exists i :: 0 <= i < |filename| && filename[i] == '.'
                        && '.' !in filename[i + 1..]
                        && Lower(filename[i + 1..]) in AllowedExtensions
  {
  }

  /** An upper-case extension passes. */
  lemma UpperCaseExtensionAllowed()
    ensures AllowedFile("suite.PNG")
  {
    var f := "suite.PNG";
    assert f[6..] == "PNG";
    LastDotIsUnique(f, 5);
    assert Lower("PNG") == "png";
  }

  /** Only the text after the last '.' is checked. */
  lemma OnlyLastExtensionCounts()
    ensures !AllowedFile("photo.png.exe")
  {
    var f := "photo.png.exe";
    assert f[10..] == "exe";
    LastDotIsUnique(f, 9);
    assert Lower("exe") == "exe";
  }
}
