/**
 * drop_files: of the dropped paths, only those whose lower-case form ends
 * with one of the image extensions are kept, in the order they came.
 */
module DropFilter {
  import opened OsPath

  const ImageExtensions: seq<string> := [".png", ".jpg", ".jpeg", ".bmp", ".tiff"]

  /** str.lower on ASCII letters. */
  function ToLower(c: char): char
  {
    if 'A' <= c <= 'Z' then (c as int - 'A' as int + 'a' as int) as char else c
  }

  /**
   * The lower-case form: same length, each upper-case ASCII letter replaced by
   * its lower-case letter, every other character kept.
   */
  function Lower(s: string): (r: string)
    ensures |r| == |s|
    ensures forall i :: 0 <= i < |s| ==> !('A' <= r[i] <= 'Z')
    ensures forall i :: 0 <= i < |s| && 'A' <= s[i] <= 'Z' ==> r[i] as int == s[i] as int - 'A' as int + 'a' as int
    ensures forall i :: 0 <= i < |s| && !('A' <= s[i] <= 'Z') ==> r[i] == s[i]
  {
    seq(|s|, i requires 0 <= i < |s| => ToLower(s[i]))
  }

  /** The lower-case path ends with one of the five listed extensions. */
  predicate IsImagePath(path: string)
    ensures IsImagePath(path) <==>
      EndsWith(Lower(path), ".png") || EndsWith(Lower(path), ".jpg") || EndsWith(Lower(path), ".jpeg") ||
      EndsWith(Lower(path), ".bmp") || EndsWith(Lower(path), ".tiff")
  {
    var low := Lower(path);
    assert ImageExtensions == [".png", ".jpg", ".jpeg", ".bmp", ".tiff"];
    exists ext :: ext in ImageExtensions && EndsWith(low, ext)
  }

  function FilterImagePaths(files: seq<string>): (kept: seq<string>)
    ensures |kept| <= |files|
    ensures forall f :: f in kept <==> f in files && IsImagePath(f)
  {
    if files == [] then []
    else (if IsImagePath(files[0]) then [files[0]] else []) + FilterImagePaths(files[1..])
  }

  /** The filter distributes over concatenation, so the kept paths keep their relative order. */
  lemma {:induction false} FilterConcat(a: seq<string>, b: seq<string>)
    ensures FilterImagePaths(a + b) == FilterImagePaths(a) + FilterImagePaths(b)
  {
    if a != [] {
      assert (a + b)[1..] == a[1..] + b;
      FilterConcat(a[1..], b);
    } else {
      assert a + b == b;
    }
  }

  /** Filtering what was already filtered changes nothing. */
  lemma {:induction false} FilterIdempotent(files: seq<string>)
    ensures FilterImagePaths(FilterImagePaths(files)) == FilterImagePaths(files)
  {
    if files != [] {
      var head := if IsImagePath(files[0]) then [files[0]] else [];
      FilterConcat(head, FilterImagePaths(files[1..]));
      FilterIdempotent(files[1..]);
      if head != [] {
        assert FilterImagePaths(head) == FilterImagePaths([files[0]]) == [files[0]] by {
          assert [files[0]][1..] == [];
        }
      }
    }
  }

  /** The extension test ignores case: two paths that differ only in case get the same answer. */
  lemma ExtensionCaseInsensitive(path: string, other: string)
    ensures IsImagePath(path) <==> IsImagePath(Lower(path))
    ensures Lower(path) == Lower(other) ==> (IsImagePath(path) <==> IsImagePath(other))
  {
    assert Lower(Lower(path)) == Lower(path);
  }

  /** "photo.PNG" is kept like "photo.png"; "photo.gif" is not kept. */
  lemma UpperCaseExtensionKept()
    ensures IsImagePath("photo.PNG") && IsImagePath("photo.png")
    ensures !IsImagePath("photo.gif")
  {
    assert Lower("photo.PNG") == "photo.png";
    assert Lower("photo.png") == "photo.png";
    assert EndsWith("photo.png", ".png");
    assert Lower("photo.gif") == "photo.gif";
  }
}
