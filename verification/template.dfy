/**
 * `Spriteful::Template`: the helpers a stylesheet template reads. A template
 * is built once from its option hash; every helper is a value computed from
 * those options and its argument.
 */
module Templates {
  import opened Wrappers
  import opened Options
  import Paths
  import Text
  import Base64

  /** The two stylesheet formats the format-keyed dispatch can reach. */
  datatype Format = Css | Scss

  /** The format named by an option value; any other name has no `..._for_<format>` method. */
  function FormatOf(v: Value): (r: Option<Format>)
    ensures r == Some(Css) <==> v == Str("css")
    ensures r == Some(Scss) <==> v == Str("scss")
    ensures r.None? <==> v != Str("css") && v != Str("scss")
  {
    match v
    case Str(s) => if s == "css" then Some(Css) else if s == "scss" then Some(Scss) else None
    case _ => None
  }

  /** `Pathname.new` and `File.expand_path` raise `TypeError` on a value that is not a path. */
  datatype TemplateError = TypeError(option: string)

  datatype Template = Template(options: Options, destination: string, root: Option<string>)

  /**
   * `Template.new(sprite, options)`: `:destination` must be a path; `:root` is
   * kept only when it is truthy, and must then be a path too.
   */
  function New(options: Options): (r: Result<Template, TemplateError>)
    ensures r.Ok? <==> "destination" in options && options["destination"].Str?
                       && (Flag(options, "root") ==> options["root"].Str?)
    ensures r.Ok? ==> r.value.options == options && r.value.destination == options["destination"].s
    ensures r.Ok? ==> (r.value.root.Some? <==> Flag(options, "root"))
    ensures r.Ok? && r.value.root.Some? ==> r.value.root.value == options["root"].s
    ensures r.Err? ==> r.error == TypeError(if "destination" in options && options["destination"].Str? then "root" else "destination")
  {
    if "destination" !in options || !options["destination"].Str? then Err(TypeError("destination"))
    else if Flag(options, "root") && !options["root"].Str? then Err(TypeError("root"))
    else
      var root := if Flag(options, "root") then Some(options["root"].s) else None;
      Ok(Template(options, options["destination"].s, root))
  }

  // ---------------------------------------------------------------------
  // class_name_for
  // ---------------------------------------------------------------------

  predicate IsUpperAscii(c: char) { 'A' <= c <= 'Z' }

  /** `String#downcase`, restricted to ASCII letters. */
  function LowerAscii(c: char): (r: char)
    ensures !IsUpperAscii(r)
    ensures IsUpperAscii(c) ==> r as int == c as int + 32
    ensures !IsUpperAscii(c) ==> r == c
  {
    if IsUpperAscii(c) then (c as int + 32) as char else c
  }

  /** One character of a class name: lower-cased, and `_` becomes `-`. */
  function ClassChar(c: char): char
  {
    if c == '_' then '-' else LowerAscii(c)
  }

  /** The text before the first `.` of a name. */
  function FirstField(name: string): (r: string)
    ensures |r| <= |name| && r == name[..|r|]
    ensures '.' !in r
    ensures |r| < |name| ==> name[|r|] == '.'
  {
    if |name| == 0 || name[0] == '.' then "" else [name[0]] + FirstField(name[1..])
  }

  /** `split('.')` drops trailing empty fields, so a name made only of dots has no first field. */
  predicate AllDots(name: string)
  {
    forall i :: 0 <= i < |name| ==> name[i] == '.'
  }

  /**
   * `class_name_for(object)`: `name.split('.').first.downcase.tr('_', '-')`.
   * `None` when `split` returns no field and `.first` is `nil` (Ruby then raises).
   */
  function ClassNameFor(name: string): (r: Option<string>)
    ensures r.None? <==> AllDots(name)
    ensures r.Some? ==> |r.value| <= |name| && (|r.value| < |name| ==> name[|r.value|] == '.')
    ensures r.Some? ==> forall i :: 0 <= i < |r.value| ==> name[i] != '.' && r.value[i] == ClassChar(name[i])
    ensures r.Some? ==> forall i :: 0 <= i < |r.value| ==> IsClassNameChar(r.value[i])
  {
    if AllDots(name) then None
    else
      Some(Sanitize(FirstField(name)))
  }

  /** `downcase.tr('_', '-')`, character by character. */
  function Sanitize(s: string): (r: string)
    ensures |r| == |s| && forall i :: 0 <= i < |s| ==> r[i] == ClassChar(s[i])
  {
    if s == "" then "" else [ClassChar(s[0])] + Sanitize(s[1..])
  }

  /** What a class name never contains: a dot, an underscore, an upper-case ASCII letter. */
  predicate IsClassNameChar(c: char)
  {
    c != '.' && c != '_' && !IsUpperAscii(c)
  }

  /** A class name is its own class name: the sanitising is idempotent. */
  lemma ClassNameForIdempotent(name: string)
    requires ClassNameFor(name).Some? && ClassNameFor(name).value != ""
    ensures ClassNameFor(ClassNameFor(name).value) == ClassNameFor(name)
  {
    var v := ClassNameFor(name).value;
    assert !AllDots(v) by { assert v[0] != '.'; }
    FirstFieldNoDot(v);
    var w := ClassNameFor(v).value;
    assert |w| == |v|;
    forall i | 0 <= i < |v| ensures w[i] == v[i] {
      assert IsClassNameChar(v[i]);
    }
    assert w == v;
  }

  lemma {:induction false} FirstFieldNoDot(s: string)
    requires '.' !in s
    ensures FirstField(s) == s
  {
    if |s| > 0 {
      FirstFieldNoDot(s[1..]);
      assert s == [s[0]] + s[1..];
    }
  }

  lemma ClassNameForExample()
    ensures ClassNameFor("Thing_name.jpg") == Some("thing-name")
  {
    assert "Thing_name.jpg" == "Thing_name" + "." + "jpg";
    ClassNameForField("Thing_name", "jpg");
    SanitizeExample();
  }

  lemma SanitizeExample()
    ensures Sanitize("Thing_name") == "thing-name"
  {
  }

  /** A name whose first dot follows a non-empty field is sanitised to that field. */
  lemma ClassNameForField(field: string, rest: string)
    requires field != "" && '.' !in field
    ensures ClassNameFor(field + "." + rest) == Some(Sanitize(field))
  {
    var name := field + "." + rest;
    assert !AllDots(name) by { assert name[0] == field[0]; }
    FirstFieldBeforeDot(field, rest);
  }

  lemma {:induction false} FirstFieldBeforeDot(field: string, rest: string)
    requires '.' !in field
    ensures FirstField(field + "." + rest) == field
  {
    if field != "" {
      FirstFieldBeforeDot(field[1..], rest);
      assert (field + "." + rest)[1..] == field[1..] + "." + rest;
      assert field == [field[0]] + field[1..];
    }
  }

  // ---------------------------------------------------------------------
  // Flags and SCSS extension tokens
  // ---------------------------------------------------------------------

  /** `mixin?`: the `:mixin` option is set to anything but `nil` or `false`. */
  predicate Mixin(t: Template)
    ensures Mixin(t) <==> "mixin" in t.options && t.options["mixin"] != Nil && t.options["mixin"] != Bool(false)
  {
    Flag(t.options, "mixin")
  }

  /** `rails?`: the `:rails` option is set to anything but `nil` or `false`. */
  predicate Rails(t: Template)
    ensures Rails(t) <==> "rails" in t.options && t.options["rails"] != Nil && t.options["rails"] != Bool(false)
  {
    Flag(t.options, "rails")
  }

  /** `extension_prefix`: how the SCSS template introduces the sprite's selector. */
  function ExtensionPrefix(t: Template): (r: string)
    ensures Mixin(t) <==> r == "@mixin "
    ensures !Mixin(t) <==> r == "%"
  {
    if Mixin(t) then "@mixin " else "%"
  }

  /**
   * `extension_strategy`: how a rule reuses that selector. A placeholder is
   * reused with `@extend` followed by the placeholder prefix; a mixin with `@include`.
   */
  function ExtensionStrategy(t: Template): (r: string)
    ensures Mixin(t) ==> r == "@include " && ExtensionPrefix(t) == "@mixin "
    ensures !Mixin(t) ==> r == "@extend " + ExtensionPrefix(t)
  {
    if Mixin(t) then "@include " else "@extend %"
  }

  // ---------------------------------------------------------------------
  // image_url
  // ---------------------------------------------------------------------

  /**
   * What `relative_path_from` needs from its inputs in this lexical model: the
   * sprite path and the base it is taken from are normalised absolute paths.
   */
  predicate UrlInputsValid(t: Template, path: string)
  {
    Rails(t) ||
    (Paths.IsNormalAbsolute(path) &&
     match t.root
     case Some(root) => Paths.IsNormalAbsolute(root)
     case None => Paths.IsNormalAbsolute(t.destination))
  }

  /**
   * `image_url(sprite)`: under rails the asset-pipeline path; otherwise, with a
   * root, "/" and the path relative to the root; otherwise the path relative to
   * the stylesheet's destination. Resolving a relative URL against its base
   * names the sprite again.
   */
  function ImageUrl(t: Template, path: string, filename: string): (r: string)
    requires UrlInputsValid(t, path)
    ensures Rails(t) ==> r == "sprites/" + filename
    ensures !Rails(t) && t.root.Some? ==>
              |r| >= 1 && r[0] == '/' &&
              Paths.Resolve(Paths.Parse(t.root.value), Paths.RelativeSteps(r[1..])) == Paths.Parse(path)
    ensures !Rails(t) && t.root.None? ==>
              Paths.Resolve(Paths.Parse(t.destination), Paths.RelativeSteps(r)) == Paths.Parse(path)
  {
    if Rails(t) then "sprites/" + filename
    else
      var base := if t.root.Some? then t.root.value else t.destination;
      var rel := Paths.RelativeFrom(Paths.Parse(path), Paths.Parse(base));
      Paths.ResolveRelativeFrom(Paths.Parse(path), Paths.Parse(base));
      Paths.RelativeStringSteps(rel);
      var s := Paths.RelativeString(rel);
      if t.root.Some? then
        assert ("/" + s)[1..] == s;
        "/" + s
      else s
  }

  /** Under a root that contains the sprite, the URL is the rest of the sprite path. */
  lemma ImageUrlBelowRoot(t: Template, path: string, filename: string)
    requires !Rails(t) && t.root.Some? && UrlInputsValid(t, path)
    requires var p, b := Paths.Parse(path), Paths.Parse(t.root.value); |b| < |p| && p[..|b|] == b
    ensures ImageUrl(t, path, filename) == Paths.Render(Paths.Parse(path)[|Paths.Parse(t.root.value)|..])
  {
    var p, b := Paths.Parse(path), Paths.Parse(t.root.value);
    Paths.RelativeFromAncestor(p, b);
  }

  /** With `rails` set the URL is the asset path under sprites/. */
  lemma ImageUrlRailsExample()
    ensures var t := Template(map["destination" := Str("/w/tmp/output"), "rails" := Bool(true)], "/w/tmp/output", None);
            ImageUrl(t, "/path", "icons.png") == "sprites/icons.png"
  {
  }

  /** Outside rails and without a root, the URL is computed from the parsed paths. */
  lemma ImageUrlFromDestination(t: Template, d: seq<string>, p: seq<string>, filename: string)
    requires !Rails(t) && t.root.None? && t.destination == Paths.Render(d)
    requires Paths.AllSegments(d) && Paths.AllSegments(p)
    ensures UrlInputsValid(t, Paths.Render(p))
    ensures ImageUrl(t, Paths.Render(p), filename) == Paths.RelativeString(Paths.RelativeFrom(p, d))
  {
    Paths.ParseRender(d);
    Paths.ParseRender(p);
  }

  /** With a root, likewise, behind a leading "/". */
  lemma ImageUrlFromRoot(t: Template, root: seq<string>, p: seq<string>, filename: string)
    requires !Rails(t) && t.root == Some(Paths.Render(root))
    requires Paths.AllSegments(root) && Paths.AllSegments(p)
    ensures UrlInputsValid(t, Paths.Render(p))
    ensures ImageUrl(t, Paths.Render(p), filename) == "/" + Paths.RelativeString(Paths.RelativeFrom(p, root))
  {
    Paths.ParseRender(root);
    Paths.ParseRender(p);
  }

  /**
   * With `root` set the URL is absolute from the root: root /w/tmp, sprite
   * /w/tmp/sprites/icons.png.
   */
  lemma ImageUrlRootExample(t: Template)
    requires t.options == map["destination" := Str(t.destination), "root" := Str(Paths.Render(["w", "tmp"]))]
    requires t.root == Some(Paths.Render(["w", "tmp"]))
    ensures UrlInputsValid(t, Paths.Render(["w", "tmp", "sprites", "icons.png"]))
    ensures ImageUrl(t, Paths.Render(["w", "tmp", "sprites", "icons.png"]), "icons.png") == "/sprites/icons.png"
  {
    assert "rails" !in t.options;
    ImageUrlFromRoot(t, ["w", "tmp"], ["w", "tmp", "sprites", "icons.png"], "icons.png");
    RelativeFromRootExample();
    SpritesString();
  }

  /**
   * Otherwise the URL is relative to the stylesheet destination: destination
   * /w/tmp/output, sprite /w/tmp/sprites/icons.png.
   */
  lemma ImageUrlDestinationExample(t: Template)
    requires t.options == map["destination" := Str(t.destination)]
    requires t.destination == Paths.Render(["w", "tmp", "output"]) && t.root.None?
    ensures UrlInputsValid(t, Paths.Render(["w", "tmp", "sprites", "icons.png"]))
    ensures ImageUrl(t, Paths.Render(["w", "tmp", "sprites", "icons.png"]), "icons.png") == "../sprites/icons.png"
  {
    assert "rails" !in t.options;
    ImageUrlFromDestination(t, ["w", "tmp", "output"], ["w", "tmp", "sprites", "icons.png"], "icons.png");
    RelativeFromDestinationExample();
    UpSpritesString();
  }

  lemma RelativeFromRootExample()
    ensures Paths.RelativeFrom(["w", "tmp", "sprites", "icons.png"], ["w", "tmp"]) == ["sprites", "icons.png"]
  {
    var a: seq<string> := ["w", "tmp", "sprites", "icons.png"];
    assert a[2..] == ["sprites", "icons.png"];
  }

  lemma RelativeFromDestinationExample()
    ensures Paths.RelativeFrom(["w", "tmp", "sprites", "icons.png"], ["w", "tmp", "output"]) == ["..", "sprites", "icons.png"]
  {
    var a: seq<string> := ["w", "tmp", "sprites", "icons.png"];
    assert a[2] != "output";
    assert a[2..] == ["sprites", "icons.png"];
    assert Paths.Ups(1) == [".."];
  }

  lemma UpSpritesString()
    ensures Paths.RelativeString(["..", "sprites", "icons.png"]) == "../sprites/icons.png"
  {
    var r: seq<string> := ["..", "sprites", "icons.png"];
    var down := Text.Join(r[1..], '/');
    assert Paths.RelativeString(r) == ".." + "/" + down;
    assert down == "sprites/icons.png" by {
      assert r[1..] == ["sprites", "icons.png"];
      SpritesString();
    }
    DotDotSlash("sprites/icons.png");
  }

  lemma DotDotSlash(s: string)
    ensures ".." + "/" + s == "../" + s
  {
  }

  lemma SpritesString()
    ensures "/" + Paths.RelativeString(["sprites", "icons.png"]) == "/sprites/icons.png"
  {
  }

  // ---------------------------------------------------------------------
  // data_uri
  // ---------------------------------------------------------------------

  const DataUriPrefix: string := "data:image/svg+xml;base64,"

  /**
   * `data_uri(image)`: for an SVG image, its blob in base 64 after the
   * `data:` header, with the line breaks of `Base64.encode64` removed;
   * `nil` for any other image.
   */
  function DataUri(isSvg: bool, blob: seq<Base64.Byte>): (r: Option<string>)
    ensures r.Some? <==> isSvg
    ensures r.Some? ==> r.value == DataUriPrefix + Base64.Encode(blob)
    ensures r.Some? ==> '\n' !in r.value
    ensures r.Some? ==> Base64.Decode(r.value[|DataUriPrefix|..]) == Some(blob)
  {
    if isSvg then
      EncodedUri(blob);
      Some(DataUriPrefix + Base64.StripLineBreaks(Base64.Encode64(blob)))
    else None
  }

  lemma EncodedUri(blob: seq<Base64.Byte>)
    ensures var uri := DataUriPrefix + Base64.StripLineBreaks(Base64.Encode64(blob));
            && uri == DataUriPrefix + Base64.Encode(blob)
            && '\n' !in uri
            && Base64.Decode(uri[|DataUriPrefix|..]) == Some(blob)
  {
    var body := Base64.StripLineBreaks(Base64.Encode64(blob));
    Base64.StrippedEncode64(blob);
    Base64.DecodeEncode(blob);
    var uri := DataUriPrefix + body;
    assert uri[|DataUriPrefix|..] == body;
    assert '\n' !in DataUriPrefix;
  }

  lemma DataUriExample()
    ensures DataUri(true, [60, 115, 118, 103, 32, 47, 62]) == Some(DataUriPrefix + "PHN2ZyAvPg==")
  {
    var r := DataUri(true, [60, 115, 118, 103, 32, 47, 62]);
    Base64.EncodeExample();
    assert r.value == DataUriPrefix + "PHN2ZyAvPg==";
  }
}
