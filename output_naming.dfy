/**
 * How process names its output files: the input's basename is split into
 * stem and extension, a direction suffix goes between them, and the result
 * is placed in the output folder. A warning is raised when the stem
 * already carries the suffix of the chosen direction.
 */
module OutputNaming {
  import opened OsPath

  /** The suffix of a direction: ten characters, starting with '_', with no dot and no separator. */
  function Suffix(encrypting: bool): (suffix: string)
    ensures |suffix| == 10 && suffix[0] == '_'
    ensures '.' !in suffix && '/' !in suffix
    ensures suffix[1] == if encrypting then 'e' else 'd'
  {
    if encrypting then "_encrypted" else "_decrypted"
  }

  /** The stem of a path's basename: what splitext leaves in front of the extension. */
  function Stem(path: string): string
  {
    SplitExt(Basename(path)).0
  }

  function Extension(path: string): string
  {
    SplitExt(Basename(path)).1
  }

  /** The re-processing warning: the stem already ends with the suffix this direction would add. */
  function AlreadyProcessed(stem: string, encrypting: bool): (warn: bool)
    ensures warn <==> EndsWith(stem, Suffix(encrypting))
  {
    (encrypting && EndsWith(stem, "_encrypted")) || (!encrypting && EndsWith(stem, "_decrypted"))
  }

  /** The output's file name: stem, suffix and extension, one character per input character plus the suffix, and no separator. */
  function OutputFileName(path: string, encrypting: bool): (name: string)
    ensures '/' !in name
    ensures |name| == |Basename(path)| + |Suffix(encrypting)|
  {
    var parts := SplitExt(Basename(path));
    NoSeparatorInPieces(parts.0, Suffix(encrypting), parts.1, Basename(path));
    Stem(path) + Suffix(encrypting) + Extension(path)
  }

  /**
   * The output path: the output file name inside the output folder.
   */
  function OutputPath(outputFolder: string, path: string, encrypting: bool): (out: string)
    ensures Basename(out) == OutputFileName(path, encrypting)
    ensures InFolder(out, outputFolder, OutputFileName(path, encrypting))
  {
    var name := OutputFileName(path, encrypting);
    Join(outputFolder, name)
  }

  lemma NoSeparatorInPieces(stem: string, suffix: string, ext: string, name: string)
    requires stem + ext == name && '/' !in name && '/' !in suffix
    ensures '/' !in stem + suffix + ext
  {
    assert forall c :: c in name <==> c in stem || c in ext;
  }

  /**
   * The output lies in the output folder and is named by the input's stem,
   * the direction suffix and the input's extension, in that order.
   */
  lemma OutputPathInFolder(outputFolder: string, path: string, encrypting: bool)
    ensures var out := OutputPath(outputFolder, path, encrypting);
      Basename(out) == Stem(path) + Suffix(encrypting) + Extension(path) &&
      InFolder(out, outputFolder, Basename(out))
  {
  }

  /** A suffix with no dot, put between a stem and its extension, keeps the split: it becomes part of the stem. */
  lemma SplitAfterInsert(stem: string, ext: string, suffix: string)
    requires IsSplit(stem, ext)
    requires suffix != [] && '.' !in suffix
    ensures IsSplit(stem + suffix, ext)
  {
    var grown := stem + suffix;
    if ext == [] {
      assert stem + ext == stem && grown + ext == grown;
      forall i | 0 <= i < |grown| && grown[i] == '.'
        ensures AllDots(grown[..i])
      {
        assert i < |stem| && grown[i] == stem[i];
        assert grown[..i] == stem[..i];
      }
    } else {
      assert grown[|stem|] == suffix[0] != '.';
    }
  }

  /** The output keeps the input's extension (and so its format), and its stem is the input's stem with the suffix. */
  lemma OutputKeepsExtension(path: string, encrypting: bool)
    ensures SplitExt(OutputFileName(path, encrypting)) == (Stem(path) + Suffix(encrypting), Extension(path))
  {
    var stem, ext, suffix := Stem(path), Extension(path), Suffix(encrypting);
    SplitAfterInsert(stem, ext, suffix);
    SplitExtUnique(stem + suffix, ext);
  }

  /** No stem ends with both suffixes: they differ in their second character. */
  lemma SuffixesExclusive(stem: string, encrypting: bool)
    ensures EndsWith(stem + Suffix(encrypting), Suffix(encrypting))
    ensures !EndsWith(stem + Suffix(encrypting), Suffix(!encrypting))
  {
    var s := stem + Suffix(encrypting);
    assert s[|s| - 10..] == Suffix(encrypting);
    assert s[|s| - 10..][1] != Suffix(!encrypting)[1];
  }

  /** Processing an output again in the same direction raises the warning. */
  lemma ReprocessingWarns(outputFolder: string, path: string, encrypting: bool)
    ensures AlreadyProcessed(Stem(OutputPath(outputFolder, path, encrypting)), encrypting)
  {
    OutputPathInFolder(outputFolder, path, encrypting);
    OutputKeepsExtension(path, encrypting);
    SuffixesExclusive(Stem(path), encrypting);
  }

  /** Processing an output in the other direction (decrypting an encrypted file) raises no warning. */
  lemma OtherDirectionDoesNotWarn(outputFolder: string, path: string, encrypting: bool)
    ensures !AlreadyProcessed(Stem(OutputPath(outputFolder, path, encrypting)), !encrypting)
  {
    OutputPathInFolder(outputFolder, path, encrypting);
    OutputKeepsExtension(path, encrypting);
    SuffixesExclusive(Stem(path), encrypting);
  }
}
