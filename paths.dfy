/**
 * Paths as the tool sees them after `expanduser().resolve()`: an absolute,
 * canonical directory and a final component. `Stem` and `Suffix` follow
 * `pathlib.PurePath.stem` and `.suffix` as CPython 3.10 to 3.13 define them:
 * the suffix starts at the last '.' of the name, provided that dot is neither
 * the first nor the last character.
 */
module Paths {

  datatype Path = Path(dir: string, name: string)

  /** `Path.with_name`: same directory, another final component. */
  function WithName(p: Path, name: string): (q: Path)
    ensures q.dir == p.dir && q.name == name
  {
    Path(p.dir, name)
  }

  /** `str.rfind('.')`: the index of the last dot, or -1 when there is none. */
  function LastDot(s: string): (i: int)
    ensures -1 <= i < |s|
    ensures i >= 0 ==> s[i] == '.'
    ensures forall j :: i < j < |s| ==> s[j] != '.'
  {
    if |s| == 0 then -1
    else if s[|s| - 1] == '.' then |s| - 1
    else LastDot(s[..|s| - 1])
  }

  /** The last dot of `name` separates a stem from a suffix. */
  predicate HasSuffix(name: string)
  {
    0 < LastDot(name) < |name| - 1
  }

  function Suffix(name: string): (s: string)
    ensures s == "" <==> !HasSuffix(name)
    ensures s != "" ==> 2 <= |s| < |name| && s[0] == '.' && s == name[|name| - |s|..]
    ensures forall j :: 0 < j < |s| ==> s[j] != '.'
  {
    if HasSuffix(name) then name[LastDot(name)..] else ""
  }

  function Stem(name: string): (s: string)
    ensures |s| <= |name| && s == name[..|s|]
    ensures s == name <==> !HasSuffix(name)
  {
    if HasSuffix(name) then name[..LastDot(name)] else name
  }

  /** A name is its stem followed by its suffix. */
  lemma StemSuffixSplit(name: string)
    ensures Stem(name) + Suffix(name) == name
  {
    if HasSuffix(name) {
      var i := LastDot(name);
      assert name[..i] + name[i..] == name;
    }
  }

  /**
   * Appending an extension (a dot, then at least one character and no more
   * dots) to a non-empty stem gives a name whose stem and suffix are exactly
   * those two parts.
   */
  lemma StemOfExtended(stem: string, ext: string)
    requires |stem| > 0 && |ext| >= 2 && ext[0] == '.'
    requires forall j :: 0 < j < |ext| ==> ext[j] != '.'
    ensures Stem(stem + ext) == stem && Suffix(stem + ext) == ext
  {
    var name := stem + ext;
    var i := LastDot(name);
    assert name[|stem|] == '.';
    forall j | |stem| < j < |name| ensures name[j] != '.' {
      assert name[j] == ext[j - |stem|];
    }
    assert i == |stem|;
    assert name[..i] == stem;
    assert name[i..] == ext;
  }

  function LowerChar(c: char): (d: char)
  {
    if 'A' <= c <= 'Z' then (c as int + 32) as char else c
  }

  /** `str.lower()`, restricted to ASCII letters. */
  function Lower(s: string): (t: string)
  {
    seq(|s|, i requires 0 <= i < |s| => LowerChar(s[i]))
  }

  /** `path.suffix.lower() == ".pdf"`. */
  predicate IsPdfName(name: string)
  {
    Lower(Suffix(name)) == ".pdf"
  }

  /** The name ends in a dot and the letters p, d, f, in either case. */
  predicate EndsInPdf(name: string)
  {
    var n := |name|;
    && n >= 4
    && name[n - 4] == '.'
    && LowerChar(name[n - 3]) == 'p'
    && LowerChar(name[n - 2]) == 'd'
    && LowerChar(name[n - 1]) == 'f'
  }

  /**
   * A name passes the PDF check exactly when it has at least one character
   * before a final ".pdf" written in any mixture of upper and lower case.
   */
  lemma PdfNameIff(name: string)
    ensures IsPdfName(name) <==> |name| >= 5 && EndsInPdf(name)
  {
    if IsPdfName(name) {
      PdfNameEnds(name);
    }
    if |name| >= 5 && EndsInPdf(name) {
      EndsInPdfIsPdfName(name);
    }
  }

  lemma PdfNameEnds(name: string)
    requires IsPdfName(name)
    ensures |name| >= 5 && EndsInPdf(name)
  {
    var n := |name|;
    var s := Suffix(name);
    assert |Lower(s)| == 4;
    assert s == name[n - 4..];
    assert s[0] == name[n - 4] && s[1] == name[n - 3] && s[2] == name[n - 2] && s[3] == name[n - 1];
    assert Lower(s)[0] == '.' && Lower(s)[1] == 'p' && Lower(s)[2] == 'd' && Lower(s)[3] == 'f';
  }

  lemma EndsInPdfIsPdfName(name: string)
    requires |name| >= 5 && EndsInPdf(name)
    ensures IsPdfName(name)
  {
    var n := |name|;
    var ext := name[n - 4..];
    assert LowerChar('.') == '.';
    StemOfExtended(name[..n - 4], ext);
    assert name[..n - 4] + ext == name;
    assert Lower(ext) == [LowerChar(ext[0]), LowerChar(ext[1]), LowerChar(ext[2]), LowerChar(ext[3])];
  }
}
