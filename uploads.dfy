/** The upload gate of app.py: which client file names are accepted as images. */
module Uploads {
  import opened Wrappers

  /** The extensions app.py accepts (app.py:9). */
  const AllowedExtensions: set<string> := {"png", "jpg", "jpeg", "gif"}

  /** Lower-casing of one character, on A-Z only. Python's `lower()` also maps other letters,
      but of those only U+212A (Kelvin sign, to "k") and U+0130 (to "i" followed by U+0307)
      reach an ASCII letter: "k" is in no allowed extension, and the combining U+0307 that
      follows the "i" keeps the extension from being one, so the verdict is the same. */
  function LowerChar(c: char): (d: char)
    ensures 'A' <= c <= 'Z' ==> 'a' <= d <= 'z' && d as int - c as int == 32
    ensures !('A' <= c <= 'Z') ==> d == c
  {
    if 'A' <= c <= 'Z' then (c as int + 32) as char else c
  }

  function Lower(s: string): (r: string)
    ensures |r| == |s|
    ensures forall i :: 0 <= i < |s| ==> r[i] == LowerChar(s[i])
  {
    seq(|s|, i requires 0 <= i < |s| => LowerChar(s[i]))
  }

  /** `i` is the position of the last '.' in `s`. */
  ghost predicate IsLastDot(s: string, i: int)
  {
    0 <= i < |s| && s[i] == '.' && forall j :: i < j < |s| ==> s[j] != '.'
  }

  /** The text after the last '.', as `s.rsplit(".", 1)[1]` yields it; None when `s` has no '.'. */
  function AfterLastDot(s: string): (r: Option<string>)
    ensures r.None? <==> '.' !in s
    ensures r.Some? ==> IsLastDot(s, |s| - |r.value| - 1) && r.value == s[|s| - |r.value|..]
    decreases |s|
  {
    if |s| == 0 then None
    else if s[|s| - 1] == '.' then Some([])
    else match AfterLastDot(s[..|s| - 1])
      case None => None
      case Some(e) => Some(e + [s[|s| - 1]])
  }

  /** allowed_file (app.py:51-52): the name has a last '.' and the text after it,
      lower-cased, is an allowed extension. */
  function AllowedFile(filename: string): (ok: bool)
    ensures ok <==> exists i :: IsLastDot(filename, i) && Lower(filename[i + 1..]) in AllowedExtensions
  {
    ExtensionAfterLastDot(filename);
    '.' in filename && Lower(AfterLastDot(filename).value) in AllowedExtensions
  }

  /** The test allowed_file writes with `rsplit` is the test on the text after the last '.'. */
  lemma ExtensionAfterLastDot(filename: string)
    ensures ('.' in filename && Lower(AfterLastDot(filename).value) in AllowedExtensions) <==>
      exists i :: IsLastDot(filename, i) && Lower(filename[i + 1..]) in AllowedExtensions
  {
    if '.' in filename {
      var e := AfterLastDot(filename).value;
      var k := |filename| - |e| - 1;
      assert IsLastDot(filename, k) && filename[k + 1..] == e;
      forall i | IsLastDot(filename, i) ensures i == k {
        LastDotUnique(filename, i);
      }
    }
  }

  /** The last '.' is unique, so the extension after it is AfterLastDot's. */
  lemma LastDotUnique(s: string, i: int)
    requires IsLastDot(s, i)
    ensures AfterLastDot(s) == Some(s[i + 1..])
  {
    var e := AfterLastDot(s).value;
    var k := |s| - |e| - 1;
    assert IsLastDot(s, k);
    LastDotsAgree(s, i, k);
  }

  lemma LastDotsAgree(s: string, i: int, j: int)
    requires IsLastDot(s, i) && IsLastDot(s, j)
    ensures i == j
  {
  }

  /** The image name stored with a post: the uploaded file is kept only when a file was sent
      and its name passes allowed_file, and it is stored under the name `secure` gives it
      (app.py:113-117, app.py:162-166). */
  function StoredImage(file: Option<string>, secure: string -> string): (r: Option<string>)
    ensures r.Some? <==>
      (file.Some? && exists i :: IsLastDot(file.value, i) && Lower(file.value[i + 1..]) in AllowedExtensions)
    ensures r.Some? ==> r.value == secure(file.value)
  {
    if file.Some? && AllowedFile(file.value) then Some(secure(file.value)) else None
  }
}
