/**
 * `Spriteful::Image`: one image of a sprite. Its path, name, size and source
 * are fixed when it is built; its `top` and `left` offsets start at 0 and are
 * overwritten in place by whoever lays the sprite out.
 */
module Images {
  import Paths

  /** The part of a decoded PNG (`ChunkyPNG::Image`) the image record reads. */
  datatype ChunkyImage = ChunkyImage(width: nat, height: nat)

  class Image {
    const source: ChunkyImage
    const path: string
    const name: string
    const width: nat
    const height: nat
    var top: int
    var left: int

    constructor(chunkyImage: ChunkyImage, path: string)
      ensures this.source == chunkyImage && this.path == path
      ensures name == Paths.Basename(path)
      ensures width == chunkyImage.width && height == chunkyImage.height
      ensures top == 0 && left == 0
    {
      this.source := chunkyImage;
      this.path := path;
      this.name := Paths.Basename(path);
      this.width := chunkyImage.width;
      this.height := chunkyImage.height;
      this.top := 0;
      this.left := 0;
    }

    /** The `top=` writer: only `top` changes. */
    method SetTop(value: int)
      modifies this`top
      ensures top == value && left == old(left)
    {
      top := value;
    }

    /** The `left=` writer: only `left` changes. */
    method SetLeft(value: int)
      modifies this`left
      ensures left == value && top == old(top)
    {
      left := value;
    }
  }

  /**
   * An image built from "path/to/image.png" is named "image.png", has the
   * source's size and sits at offset (0, 0); moving it keeps everything else.
   */
  method ImageExample() returns (name: string, width: nat, height: nat, top: int, left: int)
    ensures name == "image.png" && width == 16 && height == 24
    ensures top == 10 && left == -5
  {
    var image := new Image(ChunkyImage(16, 24), "path/to/image.png");
    assert image.top == 0 && image.left == 0;
    image.SetTop(10);
    image.SetLeft(-5);
    ImageNameExample();
    name, width, height, top, left := image.name, image.width, image.height, image.top, image.left;
  }

  lemma ImageNameExample()
    ensures Paths.Basename("path/to/image.png") == "image.png"
  {
    Paths.BasenameOfChild("path/to", "image.png");
    assert "path/to/image.png" == "path/to" + "/" + "image.png";
  }
}
