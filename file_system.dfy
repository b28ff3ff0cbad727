/**
 * The part of the file system the tool touches: which paths exist and what
 * they hold.
 */
module FileSystems {
  import opened Paths
  import opened PdfLibrary

  /** A PDF the library can parse, or anything else (a directory, other bytes). */
  datatype Entry = PdfFile(doc: Document) | Unreadable

  /** `src.replace(dst)`: `dst` now holds what `src` held, and `src` is gone. */
  function Renamed(files: map<Path, Entry>, src: Path, dst: Path): (r: map<Path, Entry>)
    requires src in files
    ensures dst in r && r[dst] == files[src]
    ensures src != dst ==> src !in r
    ensures forall q :: q != src && q != dst ==> (q in r <==> q in files) && (q in r ==> r[q] == files[q])
  {
    (files - {src})[dst := files[src]]
  }

  class FileSystem {
    var files: map<Path, Entry>

    constructor (initial: map<Path, Entry>)
      ensures files == initial
    {
      files := initial;
    }

    /** `open(p, "wb")` and `writer.write`: creates or truncates `p`. */
    method Write(p: Path, e: Entry)
      modifies this
      ensures files == old(files)[p := e]
    {
      files := files[p := e];
    }

    /** `Path.replace`. */
    method Replace(src: Path, dst: Path)
      requires src in files
      modifies this
      ensures files == Renamed(old(files), src, dst)
    {
      files := Renamed(files, src, dst);
    }
  }
}
