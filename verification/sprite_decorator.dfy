/**
 * `Spriteful::Decorators::Sprite`: what a stylesheet template prints for the
 * sprite itself. The `..._for_<format>` methods picked by the template's
 * format become a match on the format; a format other than css and scss has
 * no method to call.
 */
module SpriteDecorator {
  import Text
  import Paths
  import opened Wrappers
  import opened Options
  import Templates
  import Sprites

  /**
   * Why a decorator call raises: no method for the format, or a name whose
   * class name cannot be derived (`class_name_for` on an all-dots name).
   */
  datatype Error = UnknownFormat(format: Value) | NoClassName(name: string)

  /** `class_name_for(object)` with its failure reported. */
  function ClassNameOf(name: string): (r: Result<string, Error>)
    ensures r.Err? <==> Templates.AllDots(name)
    ensures r.Err? ==> r.error == NoClassName(name)
    ensures r.Ok? ==> Templates.ClassNameFor(name) == Some(r.value)
  {
    match Templates.ClassNameFor(name)
    case Some(c) => Ok(c)
    case None => Err(NoClassName(name))
  }

  /** `class_name`: the plain class for css, the placeholder or mixin name for scss. */
  function ClassName(t: Templates.Template, format: Value, sprite: Sprites.Sprite): (r: Result<string, Error>)
    ensures Templates.FormatOf(format).None? ==> r == Err(UnknownFormat(format))
    ensures format == Str("css") ==> r == ClassNameOf(sprite.name)
    ensures format == Str("scss") ==>
              (r.Ok? <==> ClassNameOf(sprite.name).Ok?) &&
              (r.Ok? ==> r.value == Templates.ExtensionPrefix(t) + ClassNameOf(sprite.name).value + "-sprite")
  {
    match Templates.FormatOf(format)
    case None => Err(UnknownFormat(format))
    case Some(Css) => ClassNameOf(sprite.name)
    case Some(Scss) =>
      var c :- ClassNameOf(sprite.name);
      Ok(Templates.ExtensionPrefix(t) + c + "-sprite")
  }

  /**
   * `background_image`: the sprite's URL wrapped for the format; under rails
   * as an ERB `image_url` call (css) or the `image-url` helper (scss).
   */
  function BackgroundImage(t: Templates.Template, format: Value, sprite: Sprites.Sprite): (r: Result<string, Error>)
    requires Templates.FormatOf(format).Some? ==> Templates.UrlInputsValid(t, sprite.path)
    ensures Templates.FormatOf(format).None? ==> r == Err(UnknownFormat(format))
    ensures Templates.FormatOf(format).Some? ==>
            var url := Templates.ImageUrl(t, sprite.path, Paths.Basename(sprite.path));
            && (format == Str("css") && Templates.Rails(t) ==> r == Ok("<%= image_url('" + url + "') %>"))
            && (format == Str("scss") && Templates.Rails(t) ==> r == Ok("image-url('" + url + "')"))
            && (!Templates.Rails(t) ==> r == Ok("url('" + url + "')"))
  {
    match Templates.FormatOf(format)
    case None => Err(UnknownFormat(format))
    case Some(Css) =>
      var url := Templates.ImageUrl(t, sprite.path, Paths.Basename(sprite.path));
      Ok(if Templates.Rails(t) then "<%= image_url('" + url + "') %>" else "url('" + url + "')")
    case Some(Scss) =>
      var url := Templates.ImageUrl(t, sprite.path, Paths.Basename(sprite.path));
      Ok(if Templates.Rails(t) then "image-url('" + url + "')" else "url('" + url + "')")
  }

  /** `extension`: the statement that reuses the sprite's scss selector. */
  function Extension(t: Templates.Template, sprite: Sprites.Sprite): (r: Result<string, Error>)
    ensures r.Ok? <==> ClassNameOf(sprite.name).Ok?
    ensures r.Ok? ==> r.value == Templates.ExtensionStrategy(t) + ClassNameOf(sprite.name).value + "-sprite;"
  {
    var c :- ClassNameOf(sprite.name);
    Ok(Templates.ExtensionStrategy(t) + c + "-sprite;")
  }

  /**
   * The extension line names the selector the scss class name declares: a
   * placeholder is reused with `@extend` and the placeholder itself, a mixin
   * with `@include` and the mixin's name.
   */
  lemma ExtensionUsesScssClassName(t: Templates.Template, sprite: Sprites.Sprite)
    requires ClassNameOf(sprite.name).Ok?
    ensures var scss := ClassName(t, Str("scss"), sprite).value;
            var ext := Extension(t, sprite).value;
            && (!Templates.Mixin(t) ==> ext == "@extend " + scss + ";")
            && (Templates.Mixin(t) ==> scss == "@mixin " + scss[7..] && ext == "@include " + scss[7..] + ";")
  {
    var c := ClassNameOf(sprite.name).value;
    if Templates.Mixin(t) {
      MixinName(c);
    } else {
      PlaceholderName(c);
    }
  }

  lemma MixinName(c: string)
    ensures var scss := "@mixin " + c + "-sprite";
            scss[7..] == c + "-sprite" && "@include " + c + "-sprite;" == "@include " + scss[7..] + ";"
  {
    var scss := "@mixin " + c + "-sprite";
    assert scss == "@mixin " + (c + "-sprite");
  }

  lemma PlaceholderName(c: string)
    ensures "@extend %" + c + "-sprite;" == "@extend " + ("%" + c + "-sprite") + ";"
  {
  }

  /** `images.map { |i| class_name_for(i) }`: the class name of each record, in order. */
  function NamesOf(records: seq<Sprites.ImageRecord>): (r: Result<seq<string>, Error>)
    ensures r.Ok? <==> forall i :: 0 <= i < |records| ==> !Templates.AllDots(records[i].name)
    ensures r.Ok? ==> |r.value| == |records|
    ensures r.Ok? ==> forall i :: 0 <= i < |records| ==> Templates.ClassNameFor(records[i].name) == Some(r.value[i])
  {
    if |records| == 0 then Ok([])
    else
      var c :- ClassNameOf(records[0].name);
      var rest :- NamesOf(records[1..]);
      assert forall i :: 1 <= i < |records| ==> records[i] == records[1..][i - 1];
      Ok([c] + rest)
  }

  /**
   * `var_with_name_list`: the scss list variable holding the class name of
   * every image of the sprite, in image order, separated by spaces.
   */
  function VarWithNameList(t: Templates.Template, sprite: Sprites.Sprite): (r: Result<string, Error>)
    ensures var names := NamesOf(Sprites.RecordsOf(sprite.list));
            r.Ok? <==> ClassNameOf(sprite.name).Ok? && names.Ok?
    ensures r.Ok? ==>
              r.value == "$" + ClassNameOf(sprite.name).value + "-sprite-names: " +
                         Text.Join(NamesOf(Sprites.RecordsOf(sprite.list)).value, ' ') + ";"
  {
    var names :- NamesOf(Sprites.RecordsOf(sprite.list));
    var c :- ClassNameOf(sprite.name);
    Ok("$" + c + "-sprite-names: " + Text.Join(names, ' ') + ";")
  }

  /**
   * When no image class name holds a space, the list part of the variable
   * splits back into exactly the images' class names, one per image.
   */
  lemma NameListSplits(t: Templates.Template, sprite: Sprites.Sprite)
    requires VarWithNameList(t, sprite).Ok? && |sprite.list| >= 1
    requires forall i :: 0 <= i < |sprite.list| ==> ' ' !in NamesOf(Sprites.RecordsOf(sprite.list)).value[i]
    ensures var v := VarWithNameList(t, sprite).value;
            var head := "$" + ClassNameOf(sprite.name).value + "-sprite-names: ";
            && v == head + v[|head|..|v| - 1] + ";"
            && Text.Split(v[|head|..|v| - 1], ' ') == NamesOf(Sprites.RecordsOf(sprite.list)).value
  {
    var names := NamesOf(Sprites.RecordsOf(sprite.list)).value;
    var v := VarWithNameList(t, sprite).value;
    var head := "$" + ClassNameOf(sprite.name).value + "-sprite-names: ";
    var list := Text.Join(names, ' ');
    assert v == head + list + ";";
    assert v[|head|..|v| - 1] == list;
    assert |names| >= 1;
    assert forall i :: 0 <= i < |names| ==> ' ' !in names[i];
    Text.SplitJoin(names, ' ');
  }

  /** A sprite named "simple" extends or includes "simple-sprite". */
  lemma ExtensionExamples(t: Templates.Template, sprite: Sprites.Sprite)
    requires sprite.name == "simple"
    ensures !Templates.Mixin(t) ==> Extension(t, sprite) == Ok("@extend %simple-sprite;")
    ensures Templates.Mixin(t) ==> Extension(t, sprite) == Ok("@include simple-sprite;")
    ensures !Templates.Mixin(t) ==> ClassName(t, Str("scss"), sprite) == Ok("%simple-sprite")
  {
    SimpleClassName();
    assert ClassNameOf("simple") == Ok("simple");
    ExtensionStrings();
  }

  lemma ExtensionStrings()
    ensures "@include " + "simple" + "-sprite;" == "@include simple-sprite;"
    ensures "@extend %" + "simple" + "-sprite;" == "@extend %simple-sprite;"
    ensures "%" + "simple" + "-sprite" == "%simple-sprite"
  {
  }

  lemma SimpleClassName()
    ensures Templates.ClassNameFor("simple") == Some("simple")
  {
    Templates.FirstFieldNoDot("simple");
    assert !Templates.AllDots("simple") by { assert "simple"[0] != '.'; }
    var r := Templates.Sanitize("simple");
    assert forall i :: 0 <= i < |r| ==> r[i] == "simple"[i];
  }
}
