/**
 * `Spriteful::Sprite`: the sprite's name and output path, the PNG files of its
 * source directory in ascending path order, and their enumeration as plain
 * image records.
 */
module Sprites {
  import Text
  import Paths

  /** The part of a loaded `Magick::Image` the sprite reads. */
  datatype MagickImage = MagickImage(filename: string, columns: nat, rows: nat)

  /** The `Sprite::Image` struct: name, path, width and height. */
  datatype ImageRecord = ImageRecord(name: string, path: string, width: nat, height: nat)

  /** `create_image`: wraps a loaded image into the plain record. */
  function CreateImage(image: MagickImage): (r: ImageRecord)
    ensures r.path == image.filename && r.width == image.columns && r.height == image.rows
    ensures r.name == Paths.Basename(image.filename)
    ensures r.name != "/" ==> '/' !in r.name
    ensures image.filename != "" ==> r.name != ""
  {
    ImageRecord(Paths.Basename(image.filename), image.filename, image.columns, image.rows)
  }

  /** A file found in `dir` is recorded under its own file name, with its size. */
  lemma CreateImageInDirectory(dir: string, file: string, columns: nat, rows: nat)
    requires file != "" && '/' !in file
    ensures var r := CreateImage(MagickImage(dir + "/" + file, columns, rows));
            r.name == file && r.path == dir + "/" + file && r.width == columns && r.height == rows
  {
    Paths.BasenameOfChild(dir, file);
  }

  // ---------------------------------------------------------------------
  // The sorted source list
  // ---------------------------------------------------------------------

  predicate SortedByFilename(s: seq<MagickImage>)
  {
    forall i, j :: 0 <= i < j < |s| ==> Text.Le(s[i].filename, s[j].filename)
  }

  function Insert(x: MagickImage, s: seq<MagickImage>): (r: seq<MagickImage>)
    requires SortedByFilename(s)
    ensures SortedByFilename(r)
    ensures multiset(r) == multiset(s) + multiset{x}
  {
    if |s| == 0 then [x]
    else if Text.Le(x.filename, s[0].filename) then
      InsertFront(x, s);
      [x] + s
    else
      var rest := Insert(x, s[1..]);
      InsertBehind(x, s, rest);
      [s[0]] + rest
  }

  lemma InsertFront(x: MagickImage, s: seq<MagickImage>)
    requires SortedByFilename(s) && |s| > 0 && Text.Le(x.filename, s[0].filename)
    ensures SortedByFilename([x] + s)
  {
    forall k | 1 <= k < |s| ensures Text.Le(x.filename, s[k].filename) {
      Text.LeTransitive(x.filename, s[0].filename, s[k].filename);
    }
  }

  lemma InsertBehind(x: MagickImage, s: seq<MagickImage>, rest: seq<MagickImage>)
    requires SortedByFilename(s) && |s| > 0 && !Text.Le(x.filename, s[0].filename)
    requires SortedByFilename(rest) && multiset(rest) == multiset(s[1..]) + multiset{x}
    ensures SortedByFilename([s[0]] + rest)
    ensures multiset([s[0]] + rest) == multiset(s) + multiset{x}
  {
    assert s == [s[0]] + s[1..];
    Text.LeTotal(x.filename, s[0].filename);
    forall k | 0 <= k < |rest| ensures Text.Le(s[0].filename, rest[k].filename) {
      assert rest[k] in multiset(rest);
    }
  }

  /** `Dir[...].sort`: the found images in ascending order of their paths. */
  function SortByFilename(s: seq<MagickImage>): (r: seq<MagickImage>)
    ensures SortedByFilename(r)
    ensures multiset(r) == multiset(s)
  {
    if |s| == 0 then []
    else
      assert s == [s[0]] + s[1..];
      Insert(s[0], SortByFilename(s[1..]))
  }

  /** `f` names a file directly inside `dir`. */
  predicate InDirectory(dir: string, f: string)
  {
    |f| > |dir| + 1 && f[..|dir| + 1] == dir + "/" && '/' !in f[|dir| + 1..]
  }

  lemma InDirectoryBasename(dir: string, f: string)
    requires InDirectory(dir, f)
    ensures f == dir + "/" + Paths.Basename(f)
    ensures f[|dir| + 1..] == Paths.Basename(f)
  {
    var file := f[|dir| + 1..];
    assert f == dir + "/" + file;
    Paths.BasenameOfChild(dir, file);
  }

  /**
   * Files of one directory share its path as a prefix, so ordering them by
   * full path is ordering them by file name.
   */
  lemma SortedByFilenameInDirectory(dir: string, s: seq<MagickImage>)
    requires forall i :: 0 <= i < |s| ==> InDirectory(dir, s[i].filename)
    ensures SortedByFilename(s) <==>
            forall i, j :: 0 <= i < j < |s| ==> Text.Le(Paths.Basename(s[i].filename), Paths.Basename(s[j].filename))
  {
    forall i, j | 0 <= i < j < |s|
      ensures Text.Le(s[i].filename, s[j].filename) <==>
              Text.Le(Paths.Basename(s[i].filename), Paths.Basename(s[j].filename))
    {
      InDirectoryBasename(dir, s[i].filename);
      InDirectoryBasename(dir, s[j].filename);
      Text.LeCommonPrefix(dir + "/", Paths.Basename(s[i].filename), Paths.Basename(s[j].filename));
    }
  }

  /** red.png and blue.png found in that order are listed blue first. */
  lemma SortExample(dir: string, red: MagickImage, blue: MagickImage)
    requires red.filename == dir + "/red.png" && blue.filename == dir + "/blue.png"
    ensures SortByFilename([red, blue]) == [blue, red]
  {
    BlueBeforeRed(dir);
    assert [red, blue][1..] == [blue];
    assert SortByFilename([blue]) == [blue];
  }

  lemma BlueBeforeRed(dir: string)
    ensures !Text.Le(dir + "/red.png", dir + "/blue.png")
  {
    assert !Text.Le("red.png", "blue.png");
    Text.LeCommonPrefix(dir + "/", "red.png", "blue.png");
    assert dir + "/red.png" == dir + "/" + "red.png";
    assert dir + "/blue.png" == dir + "/" + "blue.png";
  }

  // ---------------------------------------------------------------------
  // Enumeration
  // ---------------------------------------------------------------------

  /** The records `each_image` yields for `list`: one per image, in order. */
  function RecordsOf(list: seq<MagickImage>): (r: seq<ImageRecord>)
    ensures |r| == |list|
    ensures forall i :: 0 <= i < |list| ==> r[i] == CreateImage(list[i])
  {
    seq(|list|, i requires 0 <= i < |list| => CreateImage(list[i]))
  }

  class Sprite {
    const name: string
    const path: string
    const list: seq<MagickImage>

    /**
     * `found` holds the images loaded from the PNG files of `source`, in the
     * order the directory listing gave them; each image's filename is its path.
     */
    constructor(source: string, destination: string, found: seq<MagickImage>)
      ensures name == Paths.Basename(source)
      ensures path == Paths.FileJoin(destination, name) + ".png"
      ensures SortedByFilename(list) && multiset(list) == multiset(found)
      ensures list == SortByFilename(found)
    {
      name := Paths.Basename(source);
      path := Paths.FileJoin(destination, Paths.Basename(source)) + ".png";
      list := SortByFilename(found);
    }

    /** `each_image`: one record per stored image, in stored order. */
    method EachImage() returns (records: seq<ImageRecord>)
      ensures |records| == |list|
      ensures forall i :: 0 <= i < |list| ==> records[i] == CreateImage(list[i])
      ensures records == RecordsOf(list)
    {
      records := [];
      var i := 0;
      while i < |list|
        invariant 0 <= i <= |list|
        invariant |records| == i
        invariant forall k :: 0 <= k < i ==> records[k] == CreateImage(list[k])
      {
        records := records + [CreateImage(list[i])];
        i := i + 1;
      }
    }

    /** `images`, the alias of `each_image`. */
    method Images() returns (records: seq<ImageRecord>)
      ensures records == RecordsOf(list)
    {
      records := EachImage();
    }
  }

  /**
   * The sprite is written to the destination, "/", its name and ".png"; the
   * file name of that path is the sprite name plus ".png".
   */
  lemma SpritePath(source: string, destination: string)
    requires Paths.Basename(source) != "" && Paths.Basename(source) != "/"
    requires destination != "" && destination[|destination| - 1] != '/'
    ensures var name := Paths.Basename(source);
            Paths.FileJoin(destination, name) + ".png" == destination + "/" + name + ".png" &&
            Paths.Basename(Paths.FileJoin(destination, name) + ".png") == name + ".png"
  {
    var name := Paths.Basename(source);
    assert name[0] != '/' by { assert name[0] in name; }
    assert Paths.FileJoin(destination, name) + ".png" == destination + "/" + (name + ".png");
    Paths.BasenameOfChild(destination, name + ".png");
  }

  lemma SimpleSpriteNames()
    ensures Paths.Basename("spec/fixtures/simple") == "simple"
    ensures Paths.FileJoin("tmp", "simple") + ".png" == "tmp/simple.png"
  {
    SimpleBasename();
    assert Paths.FileJoin("tmp", "simple") == "tmp/simple";
  }

  lemma SimpleBasename()
    ensures Paths.Basename("spec/fixtures/simple") == "simple"
  {
    assert "spec/fixtures/simple" == "spec/fixtures" + "/" + "simple";
    Paths.BasenameOfChild("spec/fixtures", "simple");
  }

  /** The sprite of "spec/fixtures/simple" built into "tmp". */
  method SpriteExample(found: seq<MagickImage>) returns (name: string, path: string)
    ensures name == "simple" && path == "tmp/simple.png"
  {
    var sprite := new Sprite("spec/fixtures/simple", "tmp", found);
    SimpleSpriteNames();
    name, path := sprite.name, sprite.path;
  }
}
