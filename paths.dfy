/**
 * The part of Rust's `Path`/`PathBuf` that app.rs uses to name the output file:
 * `file_name`, `extension` and `set_extension`, over '/'-separated paths.
 */
module Paths {
  import opened Base

  /** Where the last component starts: just after the last '/', or 0. */
  function NameStart(p: string): (k: nat)
    ensures k <= |p|
    ensures 0 < k ==> p[k - 1] == '/'
    ensures forall i :: k <= i < |p| ==> p[i] != '/'
    ensures '/' !in p ==> k == 0
  {
    if p == [] then 0
    else if p[|p| - 1] == '/' then |p|
    else NameStart(p[..|p| - 1])
  }

  /** `Path::file_name`: the last component, absent when it is empty, "." or "..". */
  function FileName(p: string): Option<string> {
    var name := p[NameStart(p)..];
    if name == "" || name == "." || name == ".." then None else Some(name)
  }

  /** Index of the last '.' of s, if s holds one. */
  function LastDot(s: string): (d: Option<nat>)
    ensures d.None? <==> '.' !in s
    ensures d.Some? ==> d.value < |s| && s[d.value] == '.'
    ensures d.Some? ==> forall i :: d.value < i < |s| ==> s[i] != '.'
  {
    if s == [] then None
    else if s[|s| - 1] == '.' then Some(|s| - 1)
    else LastDot(s[..|s| - 1])
  }

  /**
   * `Path::extension`: the text after the last '.' of the file name; absent when the
   * name has no '.', or when its only '.' is its first character (".bashrc").
   */
  function Extension(p: string): Option<string> {
    match FileName(p)
    case None => None
    case Some(name) =>
      match LastDot(name)
      case None => None
      case Some(d) => if d == 0 then None else Some(name[d + 1..])
  }

  /** Length of the path up to the end of the file stem: the whole path unless an extension follows. */
  function StemEnd(p: string): nat
    requires FileName(p).Some?
  {
    var name := FileName(p).value;
    match LastDot(name)
    case None => |p|
    case Some(d) => if d == 0 then |p| else NameStart(p) + d
  }

  /**
   * `PathBuf::set_extension`: cut the path just after the file stem, then add "."
   * and ext unless ext is empty. A path without a file name is left as it is.
   */
  function SetExtension(p: string, ext: string): string {
    match FileName(p)
    case None => p
    case Some(_) => p[..StemEnd(p)] + (if ext == "" then "" else "." + ext)
  }

  /**
   * The output path as app.rs builds it: the existing extension, or "" when there is
   * none, with ".zst" pushed onto it, given to `set_extension`.
   */
  function CompressedPathAsWritten(p: string): string {
    var ext := match Extension(p) case Some(e) => e case None => "";
    SetExtension(p, ext + ".zst")
  }

  /** The output path as evidently intended: "zst" becomes the extension when there is none. */
  function CompressedPath(p: string): string {
    var ext := match Extension(p) case Some(e) => e + ".zst" case None => "zst";
    SetExtension(p, ext)
  }

  /** With an extension, app.rs appends ".zst" to the path ("document.pdf" gives "document.pdf.zst"). */
  lemma AsWrittenWithExtension(p: string)
    requires Extension(p).Some?
    ensures CompressedPathAsWritten(p) == p + ".zst"
  {
  }

  /** Without an extension, app.rs appends "..zst": `set_extension` adds its own '.' before ".zst". */
  lemma AsWrittenWithoutExtension(p: string)
    requires FileName(p).Some? && Extension(p).None?
    ensures CompressedPathAsWritten(p) == p + "..zst"
  {
  }

  /** The shortest witness: "README" is named "README..zst". */
  lemma ReadmeGetsTwoDots()
    ensures CompressedPathAsWritten("README") == "README..zst"
  {
    assert '/' !in "README";
    assert NameStart("README") == 0;
    assert FileName("README") == Some("README");
    assert '.' !in "README";
    assert Extension("README").None?;
    AsWrittenWithoutExtension("README");
  }

  /** The corrected naming appends ".zst" to every path that has a file name. */
  lemma CompressedPathAppends(p: string)
    requires FileName(p).Some?
    ensures CompressedPath(p) == p + ".zst"
  {
  }

  /** The corrected naming agrees with app.rs wherever the input has an extension. */
  lemma CompressedPathAgrees(p: string)
    requires Extension(p).Some?
    ensures CompressedPath(p) == CompressedPathAsWritten(p)
  {
  }
}
