/** The two allow-list checks of the handler: file extensions and the Referer header. */
module Policy {
  import opened GoPath

  /** The early-return search both checks run: does some element of `xs` equal `x`? */
  function Contains(xs: seq<string>, x: string): (found: bool)
    ensures found <==> exists k :: 0 <= k < |xs| && xs[k] == x
  {
    if xs == [] then false
    else if xs[0] == x then true
    else Contains(xs[1..], x)
  }

  /**
   * isValidExtension: the extension of `fileName`, as filepath.Ext gives it, is
   * one of `allowedExtensions`, compared exactly (so case-sensitively).
   */
  function IsValidExtension(fileName: string, allowedExtensions: seq<string>): (ok: bool)
    ensures ok <==> exists k :: 0 <= k < |allowedExtensions| && allowedExtensions[k] == Ext(fileName)
    ensures |allowedExtensions| == 0 ==> !ok
  {
    Contains(allowedExtensions, Ext(fileName))
  }

  /**
   * validateReferer: an empty allow-list admits every request; otherwise the
   * Referer value must equal one entry exactly (no prefix or host matching).
   */
  function ValidateReferer(referer: string, allowedReferers: seq<string>): (ok: bool)
    ensures |allowedReferers| == 0 ==> ok
    ensures |allowedReferers| > 0 ==>
      (ok <==> exists k :: 0 <= k < |allowedReferers| && allowedReferers[k] == referer)
  {
    if |allowedReferers| == 0 then true
    else Contains(allowedReferers, referer)
  }

  /** A name base + "." + ext passes exactly when "." + ext is listed. */
  lemma ValidExtensionOfDottedName(base: string, ext: string, allowedExtensions: seq<string>)
    requires PlainSegment(ext)
    ensures IsValidExtension(base + "." + ext, allowedExtensions) <==> ("." + ext) in allowedExtensions
  {
    ExtOfDottedName(base, ext);
  }

  /**
   * A name whose final element has no '.' has extension "", so it passes only
   * when the allow-list itself contains the empty string.
   */
  lemma ExtensionlessName(fileName: string, allowedExtensions: seq<string>)
    requires forall i :: 0 <= i < |fileName| && fileName[i] == '.' ==>
               exists j :: i < j < |fileName| && fileName[j] == Separator
    ensures IsValidExtension(fileName, allowedExtensions) <==> "" in allowedExtensions
  {
  }

  /** The comparison is case-sensitive: ".JPG" does not match ".jpg". */
  lemma ExtensionIsCaseSensitive()
    ensures IsValidExtension("cat.jpg", [".jpg"])
    ensures !IsValidExtension("cat.JPG", [".jpg"])
  {
    assert "cat" + "." + "jpg" == "cat.jpg" && "." + "jpg" == ".jpg";
    assert "cat" + "." + "JPG" == "cat.JPG" && "." + "JPG" == ".JPG";
    ValidExtensionOfDottedName("cat", "jpg", [".jpg"]);
    ValidExtensionOfDottedName("cat", "JPG", [".jpg"]);
  }

  /** Under the allow-list [".jpg", ".png"], a.jpg and b.png pass and note.txt does not. */
  lemma ExampleExtensions()
    ensures IsValidExtension("a.jpg", [".jpg", ".png"]) && IsValidExtension("b.png", [".jpg", ".png"])
    ensures !IsValidExtension("note.txt", [".jpg", ".png"])
  {
    assert "a" + "." + "jpg" == "a.jpg" && "." + "jpg" == ".jpg";
    ValidExtensionOfDottedName("a", "jpg", [".jpg", ".png"]);
    assert "b" + "." + "png" == "b.png" && "." + "png" == ".png";
    ValidExtensionOfDottedName("b", "png", [".jpg", ".png"]);
    assert "note" + "." + "txt" == "note.txt" && "." + "txt" == ".txt";
    ValidExtensionOfDottedName("note", "txt", [".jpg", ".png"]);
  }

  /** Only the last dot counts: "a.tar.gz" has extension ".gz", not ".tar.gz". */
  lemma OnlyLastDotCounts()
    ensures !IsValidExtension("a.tar.gz", [".tar.gz"])
    ensures IsValidExtension("a.tar.gz", [".gz"])
  {
  }

  /** Matching is exact: a referer that merely starts with an allowed one is refused. */
  lemma RefererMatchIsExact()
    ensures !ValidateReferer("https://b.com", ["https://a.com"])
    ensures !ValidateReferer("https://a.com/page", ["https://a.com"])
    ensures ValidateReferer("https://a.com", ["https://a.com"])
  {
  }
}
