/**
 * process: with no file selected, or with a key that get_key rejects,
 * nothing is processed. Otherwise every selected file, in order, is
 * processed with the same key into its derived output path, with a warning
 * when its stem already carries the direction's suffix.
 */
module Process {
  import opened Wrappers
  import opened PixelCodec
  import opened KeyEntry
  import opened OutputNaming
  import OsPath

  datatype Error = NoFile | InvalidKey

  /** What process does for one selected file. */
  datatype Job = Job(input: string, output: string, warn: bool, key: Byte)

  /**
   * The job for one file: it reads that file with the given key, writes a
   * file named by the input's stem, the suffix and the extension inside the
   * output folder, and warns exactly when the stem already carries the suffix.
   */
  function JobFor(outputFolder: string, path: string, key: Byte, encrypting: bool): (job: Job)
    ensures job.input == path && job.key == key
    ensures OsPath.Basename(job.output) == Stem(path) + Suffix(encrypting) + Extension(path)
    ensures OsPath.InFolder(job.output, outputFolder, OsPath.Basename(job.output))
    ensures job.warn <==> OsPath.EndsWith(Stem(path), Suffix(encrypting))
  {
    OutputPathInFolder(outputFolder, path, encrypting);
    Job(path, OutputPath(outputFolder, path, encrypting), AlreadyProcessed(Stem(path), encrypting), key)
  }

  /** One job per selected file, in the order of the selection. */
  function Jobs(files: seq<string>, outputFolder: string, key: Byte, encrypting: bool): (jobs: seq<Job>)
    ensures |jobs| == |files|
    ensures forall i :: 0 <= i < |files| ==> jobs[i] == JobFor(outputFolder, files[i], key, encrypting)
  {
    seq(|files|, i requires 0 <= i < |files| => JobFor(outputFolder, files[i], key, encrypting))
  }

  /** The selection is checked before the key, and both before any file is touched. */
  function Process(files: seq<string>, outputFolder: string, keyEntry: string, encrypting: bool): (r: Result<seq<Job>, Error>)
    ensures r == Failure(NoFile) <==> files == []
    ensures r == Failure(InvalidKey) <==> files != [] && GetKey(keyEntry).None?
    ensures r.Success? ==> GetKey(keyEntry).Some? && r.value == Jobs(files, outputFolder, GetKey(keyEntry).value, encrypting)
  {
    if files == [] then Failure(NoFile)
    else match GetKey(keyEntry)
      case None => Failure(InvalidKey)
      case Some(key) => Success(Jobs(files, outputFolder, key, encrypting))
  }

  /**
   * Encrypt and decrypt differ only in the output names and the warning:
   * both hand every file the one key typed in, so masking a decoded buffer
   * for encryption and then for decryption restores that decoded buffer.
   */
  lemma DecryptUndoesEncrypt(files: seq<string>, outputFolder: string, files': seq<string>, outputFolder': string,
                             keyEntry: string, i: nat, j: nat, image: seq<seq<Pixel>>)
    ensures var encrypted := Process(files, outputFolder, keyEntry, true);
            var decrypted := Process(files', outputFolder', keyEntry, false);
            encrypted.Success? && decrypted.Success? && i < |files| && j < |files'| ==>
              encrypted.value[i].key == decrypted.value[j].key &&
              XorGrid(XorGrid(image, encrypted.value[i].key), decrypted.value[j].key) == image
  {
    if GetKey(keyEntry).Some? {
      XorGridInvolution(image, GetKey(keyEntry).value);
    }
  }

  /** Every job's output name is its input's stem, the direction's suffix and the input's extension. */
  lemma JobsNameOutputs(files: seq<string>, outputFolder: string, keyEntry: string, encrypting: bool, i: nat)
    ensures var r := Process(files, outputFolder, keyEntry, encrypting);
            r.Success? && i < |files| ==>
              r.value[i].input == files[i] &&
              OsPath.Basename(r.value[i].output) == Stem(files[i]) + Suffix(encrypting) + Extension(files[i]) &&
              (r.value[i].warn <==> OsPath.EndsWith(Stem(files[i]), Suffix(encrypting)))
  {
    if i < |files| {
      OutputPathInFolder(outputFolder, files[i], encrypting);
    }
  }
}
