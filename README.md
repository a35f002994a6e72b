# XOR image encryptor: verified model of its core

The program is a desktop tool that "encrypts" and "decrypts" images by
masking every RGB channel of every pixel with a single byte key using
exclusive or. Both directions are the same operation with the same key; they
differ only in the suffix added to the output file name. This project models
the parts of `main.py` that carry logic:

- the pixel loop of `process_image`, which overwrites each pixel of the
  decoded width-by-height buffer in place (`pixel_codec.dfy`, with Python's
  `^` on non-negative integers in `bitwise.dfy`);
- `get_key`, which accepts the key field only when it reads as an integer in
  [0, 255] (`key_entry.dfy`);
- the output naming and the re-processing warning of `process`
  (`os_path.dfy` for `os.path.basename`, `splitext`, `join` and
  `str.endswith`; `output_naming.dfy`);
- the extension filter of `drop_files` (`drop_filter.dfy`);
- the order of checks in `process` and what it does for each selected file
  (`process.dfy`).

Python keeps the last definition of a name, so `get_key`, `encrypt`,
`decrypt` and `process` are modelled from their second definitions
(main.py:338-378); the earlier ones (main.py:294-334) are never called.
`main` is defined twice as well (main.py:380-383, 385-401); it only builds
the window and is not part of this model (see "## Left out").

`OutputNaming.Stem` and `OutputNaming.Extension` are the two parts of
`SplitExt(Basename(path))`, the `base, ext` of main.py:367; what is known
about them comes from the contracts of `OsPath.SplitExt` and
`OsPath.Basename`.

The buffer is an `array2<Pixel>` indexed `[x, y]`, like PIL's pixel access
object, with `Length0` the width and `Length1` the height. Its value view
`Grid` is a sequence of columns, matching the loop's `x`-outer order. Channels
and keys are the subset type `Byte` (0..255). The exclusive or is defined on
unbounded naturals, bit by bit, and lemmas show what it does on bytes, so the
channel bound is proved, not assumed.

## Model

| member | source | states |
|---|---|---|
| Bitwise.Xor | main.py:86-88 | Python's `^` on non-negative integers: the lowest bit of the result is set exactly when the operands' lowest bits differ, and the result is 0 exactly when the operands are equal |
| Bitwise.XorSelfInverse | main.py:85-89 | masking a channel twice with the same key gives back the original channel |
| Bitwise.XorZero | main.py:85-89 | key 0 leaves a channel unchanged |
| Bitwise.XorInjectiveInKey | main.py:85-89 | one channel masked with two keys gives equal results exactly when the keys are equal |
| Bitwise.XorByte | main.py:85-89 | a channel in [0, 255] masked with a key in [0, 255] stays in [0, 255] |
| PixelCodec.XorChannel | main.py:86-88 | one masked channel stays in [0, 255], and equals the old channel exactly when the key is 0 |
| PixelCodec.XorPixel | main.py:84-89 | the masked pixel equals the old one exactly when the key is 0; each of its three channels changes exactly when the key is not 0 |
| PixelCodec.MaskExample | main.py:85-89 | the pixel (128, 64, 32) masked with key 5 is (133, 69, 37) |
| PixelCodec.XorPixelChannels | main.py:84-89 | a masked pixel is (r ^ key, g ^ key, b ^ key) of the old (r, g, b) |
| PixelCodec.XorPixelInvolution | main.py:84-89 | masking a pixel twice with the same key restores it |
| PixelCodec.XorColumn | main.py:83-89 | a masked column has the same length, and each pixel is the masked form of the pixel at the same place |
| PixelCodec.XorGrid | main.py:82-89 | the masked buffer has the same number of columns and the same column lengths; pixel (x, y) depends only on old pixel (x, y) and the key |
| PixelCodec.XorGridKeepsDimensions | main.py:81-89 | the transform keeps width and height, in both directions of the equivalence |
| PixelCodec.XorGridInvolution | main.py:82-89 | applying the transform twice with the same key restores the buffer exactly |
| PixelCodec.XorGridKeyZero | main.py:82-89 | key 0 leaves every pixel unchanged |
| PixelCodec.XorGridDistinctKeys | main.py:82-89 | on a buffer with at least one pixel, two keys give the same result exactly when they are equal |
| PixelCodec.Grid | main.py:80-81 | the value of the buffer: width columns of height pixels, pixel (x, y) equal to the buffer's |
| PixelCodec.XorMaskInPlace | main.py:81-89 | after the nested loops every pixel (x, y) holds the masked form of its old value, so the buffer equals the transform of the old buffer; the loop invariants say that pixels before the loop position are masked and the others untouched |
| PixelCodec.EncryptThenDecrypt | main.py:349-353 | encrypting and then decrypting with the same key are the same in-place call made twice, and restore the buffer |
| KeyEntry.ParseInt | main.py:340 | reading succeeds exactly on an optionally signed, non-empty string of decimal digits |
| KeyEntry.ParseIntOfDecimal | main.py:340 | reading back the decimal spelling of any integer gives that integer |
| KeyEntry.ParseIntLeadingZeroAndPlus | main.py:340 | a leading zero or a leading '+' before a digit string does not change the integer read ("007" is 7, "+255" is 255) |
| KeyEntry.GetKey | main.py:338-347 | a key is returned exactly when the entry reads as an integer in [0, 255], and it is that integer; otherwise None |
| KeyEntry.GetKeyOfInteger | main.py:338-347 | an integer typed in decimal is accepted exactly when it lies in [0, 255] (so 0 and 255 are accepted, -1 and 256 rejected) |
| KeyEntry.GetKeyRejectsNonNumeric | main.py:339-347 | an entry holding a character that is neither a digit nor a leading sign is rejected (such as "abc") |
| KeyEntry.GetKeyRejectsEmpty | main.py:339-347 | the empty entry is rejected |
| OsPath.EndsWith | main.py:370 | `str.endswith`: the string is what stands in front of the suffix followed by the suffix |
| OsPath.Basename | main.py:367 | the basename is a suffix of the path with no separator, starting right after the last separator (or at the start) |
| OsPath.SplitExt | main.py:367 | stem and extension concatenate back to the name; the extension is empty or runs from the last dot, which must have a non-dot in front of it |
| OsPath.SplitExtUnique | main.py:367 | any split with those properties is the one splitext returns |
| OsPath.Join | main.py:368 | a component without separators becomes the basename, and what stands in front of it is the folder, followed by '/' exactly when the folder is non-empty and does not already end with '/' |
| OutputNaming.Suffix | main.py:363 | each direction's suffix is ten characters starting with '_', with no dot and no '/', and the two suffixes differ in their second character |
| OutputNaming.OutputFileName | main.py:367-368 | the output file name holds no '/' and is ten characters longer than the input's basename; its content is stated by OutputKeepsExtension and OutputPathInFolder |
| OutputNaming.OutputPath | main.py:368 | the output path's basename is the output file name, placed inside the output folder |
| OutputNaming.AlreadyProcessed | main.py:370 | the warning fires exactly when the stem ends with the suffix of the current direction |
| OutputNaming.OutputPathInFolder | main.py:363-368 | the output path is inside the output folder (the folder followed by '/' where it has none), and its basename is the input's stem, then "_encrypted" or "_decrypted", then the input's extension |
| OutputNaming.OutputKeepsExtension | main.py:367-368 | splitting the output name gives back the input's extension, with the suffixed stem in front of it |
| OutputNaming.ReprocessingWarns | main.py:367-370 | processing an output again in the same direction raises the warning |
| OutputNaming.OtherDirectionDoesNotWarn | main.py:367-370 | processing an output in the other direction raises no warning |
| DropFilter.Lower | main.py:262 | the lower-case form has the same length, each letter 'A'..'Z' becomes its own lower-case letter, no upper-case ASCII letter is left, and every other character is unchanged |
| DropFilter.IsImagePath | main.py:262 | a path counts as an image exactly when its lower-case form ends with .png, .jpg, .jpeg, .bmp or .tiff |
| DropFilter.FilterImagePaths | main.py:262 | a path is kept exactly when it was dropped and its lower-case form ends with .png, .jpg, .jpeg, .bmp or .tiff |
| DropFilter.FilterConcat | main.py:262 | the filter distributes over concatenation, so kept paths keep their relative order |
| DropFilter.FilterIdempotent | main.py:262 | filtering the kept paths again changes nothing |
| DropFilter.ExtensionCaseInsensitive | main.py:262 | the extension test gives the same answer for a path and its lower-case form, and for any two paths whose lower-case forms agree |
| DropFilter.UpperCaseExtensionKept | main.py:262 | "photo.PNG" and "photo.png" are both kept, "photo.gif" is not |
| Process.JobFor | main.py:366-372 | the job for one file reads that file with the given key, writes inside the output folder to a file named by stem, suffix and extension, and warns exactly when the stem already ends with the suffix |
| Process.Jobs | main.py:366-371 | one job per selected file, in order, each with the file's output path, its warning flag and the key |
| Process.Process | main.py:355-372 | no file selected fails with NoFile; otherwise a rejected key fails with InvalidKey; otherwise every file gets its job with the accepted key |
| Process.DecryptUndoesEncrypt | main.py:349-372 | encrypt and decrypt with the same key entry give every file the same key, so masking a decoded buffer for encryption and then for decryption restores the decoded buffer |
| Process.JobsNameOutputs | main.py:366-370 | each job reads its selected file and writes to a file named by stem, suffix and extension, and it warns exactly when the stem already ends with the suffix |

## Left out

- The Tkinter interface: widgets, layout, previews, tooltips, hover effects, the progress bar, message boxes, key bindings and full-screen handling (main.py:96-234, 269-292, 385-401). These are presentation only.
- PIL: opening, converting to RGB, loading and saving images (main.py:78-80, 90), and the `True`/`False` result of `process_image` when one of them raises. These are calls into an image library. The model starts from a decoded 3-channel 8-bit buffer, so what RGB conversion does to an alpha channel is not modelled.
- Process.DecryptUndoesEncrypt: states the round trip on decoded buffers only. Between the two runs the image goes through a file: `img.save` (main.py:90) picks the format from the kept extension. For .jpg and .jpeg that encoding is lossy, so decrypting the encrypted file gives back the original exactly only for lossless formats such as .png, .bmp and .tiff. Encoding is not modelled.
- How `drop_files` splits the dropped data into paths with Tk's `splitlist` (main.py:261). This is Tcl list parsing inside the toolkit; DropFilter.FilterImagePaths starts from the already split list.
- The success and failure message shown per file, and the progress updates, in `process` (main.py:373-378). These are user-interface output.
- `UserConfig` and every read or write of `user_config.json` (main.py:60-73, 238-239, 247-248, 256-257, 265-266). These are file I/O.
- `toggle_language` restarting the process (main.py:236-241), and the file and folder dialogs (main.py:243-258). These are process control and UI.
- The state update in `drop_files` after filtering, which sets the last folder from the first kept path (main.py:263-267). This is configuration I/O.
- The earlier, shadowed definitions of `get_key`, `encrypt`, `decrypt`, `process` and `main` (main.py:294-334, 380-383). Python never calls them.
- KeyEntry.ParseInt, KeyEntry.GetKeyRejectsNonNumeric: reads a plain decimal literal with an optional sign. Python's `int()` also accepts surrounding whitespace, underscores between digits and non-ASCII decimal digits; the model rejects those entries.
- OsPath.Basename, OsPath.Join: follow POSIX `os.path` with `/` as the only separator. The Windows forms, with `\` and drive letters, are not modelled.
- DropFilter.Lower: lower-cases ASCII letters only. Python's `str.lower` also maps other Unicode letters, sometimes to more than one character.
- A cryptographic-strength claim: masking every channel with one repeated byte is not treated as a cipher.
