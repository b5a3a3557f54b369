/**
 * `Spriteful::Decorators::Image`: what a stylesheet template prints for one
 * image of a sprite. The decorator only reads the image it wraps; every
 * operation here is a function, so none of them changes it.
 */
module ImageDecorator {
  import Text
  import opened Wrappers
  import opened Options
  import Base64
  import Templates
  import Images
  import Sprites
  import SpriteDecorator

  /** `class_name`: the image's class name, from its file name. */
  function ClassName(image: Images.Image): (r: Result<string, SpriteDecorator.Error>)
    ensures r == SpriteDecorator.ClassNameOf(image.name)
    ensures r.Ok? ==> Templates.ClassNameFor(image.name) == Some(r.value)
  {
    SpriteDecorator.ClassNameOf(image.name)
  }

  /** `background_position`: "<left>px <top>px", the left offset first. */
  function BackgroundPosition(image: Images.Image): (r: string)
    reads image
    ensures ParsePosition(r) == Some((image.left, image.top))
  {
    PositionRoundTrip(image.left, image.top);
    Text.IntToDecimal(image.left) + "px " + Text.IntToDecimal(image.top) + "px"
  }

  /** A length in pixels: an integer followed by "px". */
  function PxValue(s: string): Option<int>
  {
    if |s| >= 2 && s[|s| - 2..] == "px" then Text.ParseInt(s[..|s| - 2]) else None
  }

  /** Reads a background position back: two lengths in pixels, separated by one space. */
  function ParsePosition(s: string): Option<(int, int)>
  {
    var parts := Text.Split(s, ' ');
    if |parts| != 2 then None
    else
      var x :- PxValue(parts[0]);
      var y :- PxValue(parts[1]);
      Some((x, y))
  }

  lemma PxValueOf(i: int)
    ensures PxValue(Text.IntToDecimal(i) + "px") == Some(i)
  {
    var a := Text.IntToDecimal(i);
    var s := a + "px";
    assert s[|s| - 2..] == "px";
    assert s[..|s| - 2] == a;
    Text.IntToDecimalRoundTrip(i);
  }

  /** Both offsets, signs included, are read back from the position. */
  lemma PositionRoundTrip(left: int, top: int)
    ensures ParsePosition(Text.IntToDecimal(left) + "px " + Text.IntToDecimal(top) + "px") == Some((left, top))
  {
    var a, b := Text.IntToDecimal(left) + "px", Text.IntToDecimal(top) + "px";
    assert ' ' !in a && ' ' !in b;
    assert Text.Join([a, b], ' ') == Text.IntToDecimal(left) + "px " + Text.IntToDecimal(top) + "px";
    Text.SplitJoin([a, b], ' ');
    PxValueOf(left);
    PxValueOf(top);
  }

  /**
   * `selector`: for css the sprite's class and the image's class, both as
   * classes of one element; for scss the image's own selector next to the
   * sprite's placeholder or mixin.
   */
  function Selector(t: Templates.Template, format: Value, sprite: Sprites.Sprite, image: Images.Image)
    : (r: Result<string, SpriteDecorator.Error>)
    ensures Templates.FormatOf(format).None? ==> r == Err(SpriteDecorator.UnknownFormat(format))
    ensures Templates.FormatOf(format).Some? ==>
              (r.Ok? <==> SpriteDecorator.ClassNameOf(sprite.name).Ok? && ClassName(image).Ok?)
    ensures format == Str("css") && r.Ok? ==>
              r.value == "." + SpriteDecorator.ClassNameOf(sprite.name).value + "." + ClassName(image).value
    ensures format == Str("scss") && r.Ok? ==>
              r.value == Templates.ExtensionPrefix(t) + SpriteDecorator.ClassNameOf(sprite.name).value
                         + "-sprite-" + ClassName(image).value
  {
    match Templates.FormatOf(format)
    case None => Err(SpriteDecorator.UnknownFormat(format))
    case Some(Css) =>
      var spriteClass :- SpriteDecorator.ClassName(t, format, sprite);
      var imageClass :- ClassName(image);
      Ok("." + spriteClass + "." + imageClass)
    case Some(Scss) =>
      var spriteClass :- SpriteDecorator.ClassName(t, format, sprite);
      var imageClass :- ClassName(image);
      Ok(spriteClass + "-" + imageClass)
  }

  lemma NoDotInClassName(name: string)
    requires Templates.ClassNameFor(name).Some?
    ensures '.' !in Templates.ClassNameFor(name).value
  {
    var v := Templates.ClassNameFor(name).value;
    forall i | 0 <= i < |v| ensures v[i] != '.' {
      assert Templates.IsClassNameChar(v[i]);
    }
  }

  /** The css selector names exactly two classes: the sprite's, then the image's. */
  lemma CssSelectorClasses(t: Templates.Template, sprite: Sprites.Sprite, image: Images.Image)
    requires Selector(t, Str("css"), sprite, image).Ok?
    ensures Text.Split(Selector(t, Str("css"), sprite, image).value, '.') ==
            ["", SpriteDecorator.ClassNameOf(sprite.name).value, ClassName(image).value]
  {
    NoDotInClassName(sprite.name);
    NoDotInClassName(image.name);
    SplitTwoClasses(SpriteDecorator.ClassNameOf(sprite.name).value, ClassName(image).value);
  }

  lemma SplitTwoClasses(sc: string, ic: string)
    requires '.' !in sc && '.' !in ic
    ensures Text.Split("." + sc + "." + ic, '.') == ["", sc, ic]
  {
    assert ["", sc, ic][1..] == [sc, ic] && [sc, ic][1..] == [ic];
    assert Text.Join([sc, ic], '.') == sc + "." + ic;
    assert Text.Join(["", sc, ic], '.') == "" + "." + (sc + "." + ic);
    assert Text.Join(["", sc, ic], '.') == "." + sc + "." + ic;
    Text.SplitJoin(["", sc, ic], '.');
  }

  /**
   * `data_uri`: the template's data URI of the image. Whether the image is an
   * SVG and its content are inputs here.
   */
  function DataUri(isSvg: bool, blob: seq<Base64.Byte>): (r: Option<string>)
    ensures r.Some? <==> isSvg
    ensures r.Some? ==> |Templates.DataUriPrefix| <= |r.value|
                        && r.value[..|Templates.DataUriPrefix|] == Templates.DataUriPrefix
                        && Base64.Decode(r.value[|Templates.DataUriPrefix|..]) == Some(blob)
  {
    Templates.DataUri(isSvg, blob)
  }

  /** Image "blue.png" of sprite "simple" has the css selector ".simple.blue". */
  lemma CssSelectorExample(t: Templates.Template, sprite: Sprites.Sprite, image: Images.Image)
    requires sprite.name == "simple" && image.name == "blue.png"
    ensures Selector(t, Str("css"), sprite, image) == Ok(".simple.blue")
  {
    SpriteDecorator.SimpleClassName();
    BlueClassName();
    assert SpriteDecorator.ClassNameOf(sprite.name) == Ok("simple");
    assert ClassName(image) == Ok("blue");
    var r := Selector(t, Str("css"), sprite, image);
    assert r.Ok?;
    assert r.value == "." + "simple" + "." + "blue";
    SelectorStrings();
  }

  /** The same image, in scss with placeholders: "%simple-sprite-blue". */
  lemma ScssSelectorExample(t: Templates.Template, sprite: Sprites.Sprite, image: Images.Image)
    requires sprite.name == "simple" && image.name == "blue.png" && !Templates.Mixin(t)
    ensures Selector(t, Str("scss"), sprite, image) == Ok("%simple-sprite-blue")
  {
    SpriteDecorator.SimpleClassName();
    BlueClassName();
    assert SpriteDecorator.ClassNameOf(sprite.name) == Ok("simple");
    assert ClassName(image) == Ok("blue");
    assert Templates.ExtensionPrefix(t) == "%";
    var r := Selector(t, Str("scss"), sprite, image);
    assert r.Ok?;
    assert r.value == "%" + "simple" + "-sprite-" + "blue";
    SelectorStrings();
  }

  lemma SelectorStrings()
    ensures "." + "simple" + "." + "blue" == ".simple.blue"
    ensures "%" + "simple" + "-sprite-" + "blue" == "%simple-sprite-blue"
  {
  }

  lemma BlueClassName()
    ensures Templates.ClassNameFor("blue.png") == Some("blue")
  {
    assert "blue.png" == "blue" + "." + "png";
    Templates.ClassNameForField("blue", "png");
    assert Templates.Sanitize("blue") == "blue";
  }

  /** An image moved to top -16 is positioned "0px -16px"; the sign is kept. */
  method PositionExample() returns (position: string)
    ensures position == "0px -16px"
  {
    var image := new Images.Image(Images.ChunkyImage(16, 16), "sprites/blue.png");
    image.SetTop(-16);
    position := BackgroundPosition(image);
    PositionStrings();
  }

  lemma PositionStrings()
    ensures Text.IntToDecimal(0) + "px " + Text.IntToDecimal(-16) + "px" == "0px -16px"
  {
  }
}
