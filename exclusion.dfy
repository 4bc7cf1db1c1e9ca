/**
  The exclusion rules of a collection run. Both tests are exact membership of
  a bare name in a set built from the project's lists; there is no globbing.
*/
module Exclusion {
  import opened PathOps

  /** A file is skipped when its base name, or the extension `splitext` gives it, is listed. */
  predicate IsSkippedFile(name: string, ignoreFilenames: set<string>, ignoreFiletypes: set<string>) {
    name in ignoreFilenames || Extension(name) in ignoreFiletypes
  }

  /** A subdirectory is left out of the descent when its bare name is listed. */
  predicate IsPrunedDir(name: string, ignoreFolders: set<string>) {
    name in ignoreFolders
  }

  /**
    A dot-file has no extension, so `ignore_filetypes` skips it only through
    an empty entry, which no saved list holds.
  */
  lemma DotFileExample(ignoreFiletypes: set<string>)
    ensures Extension(".bashrc") == ""
    ensures IsSkippedFile(".bashrc", {}, ignoreFiletypes) <==> "" in ignoreFiletypes
  {
    DotFileHasNoExtension("bashrc");
    assert "." + "bashrc" == ".bashrc";
  }

  /**
    For a name with a real extension, and whose base name is not listed,
    `ignore_filetypes` decides: the file is skipped exactly when the dot and
    the suffix after it are listed.
  */
  lemma SkippedByExtension(stem: string, suffix: string, ignoreFilenames: set<string>, ignoreFiletypes: set<string>)
    requires !OnlyDots(stem) && '.' !in suffix
    requires stem + "." + suffix !in ignoreFilenames
    ensures IsSkippedFile(stem + "." + suffix, ignoreFilenames, ignoreFiletypes) <==> "." + suffix in ignoreFiletypes
  {
    ExtensionOfStemAndSuffix(stem, suffix);
  }

  /** A trailing dot is an extension of its own, and only the last suffix counts. */
  lemma SuffixExamples()
    ensures Extension("file.") == "."
    ensures Extension("archive.tar.gz") == ".gz"
  {
    assert !OnlyDots("file") by { assert "file"[0] == 'f'; }
    ExtensionOfStemAndSuffix("file", "");
    assert "file" + "." + "" == "file.";
    assert !OnlyDots("archive.tar") by { assert "archive.tar"[0] == 'a'; }
    ExtensionOfStemAndSuffix("archive.tar", "gz");
    assert "archive.tar" + "." + "gz" == "archive.tar.gz";
  }

  /** Matching is exact: the pattern `*.py` and the bare `py` skip nothing, `.py` does. */
  lemma NoGlobbingExample()
    ensures !IsSkippedFile("main.py", {}, {"*.py", "py"})
    ensures IsSkippedFile("main.py", {}, {".py"})
  {
    assert !OnlyDots("main") by { assert "main"[0] == 'm'; }
    ExtensionOfStemAndSuffix("main", "py");
    assert "main" + "." + "py" == "main.py";
  }
}
