/**
 * `Spriteful::Stylesheet`: where the stylesheet of a sprite is written, under
 * which file name, from which template, and the options its template receives.
 */
module Stylesheets {
  import Text
  import Paths
  import opened Options
  import Sprites
  import Templates

  /** `options[key]`, reading a missing key as `nil`. */
  function Get(options: Options, key: string): Value
  {
    if key in options then options[key] else Nil
  }

  /** `sprite_name`: "_" in front for scss; nothing (a `nil`) for another format. */
  function SpriteNameFor(format: Value, spriteName: string): (r: string)
    ensures Templates.FormatOf(format).None? ==> r == ""
    ensures format == Str("css") ==> r == spriteName
    ensures Templates.FormatOf(format).Some? ==>
              |spriteName| <= |r| && r[|r| - |spriteName|..] == spriteName
    ensures format == Str("scss") ==> r == "_" + spriteName
  {
    match format
    case Str("css") => spriteName
    case Str("scss") => "_" + spriteName
    case _ => ""
  }

  /** `rails_extension`: css goes through ERB first; nothing for another format. */
  function RailsExtension(format: Value): (r: string)
    ensures r == "" <==> Templates.FormatOf(format).None?
    ensures r != "" ==> |Interpolate(format)| <= |r| && r[..|Interpolate(format)|] == Interpolate(format)
    ensures format == Str("css") ==> r == "css.erb"
    ensures format == Str("scss") ==> r == "scss"
  {
    match format
    case Str("css") => "css.erb"
    case Str("scss") => "scss"
    case _ => ""
  }

  /** `name`: the sprite name for the format, ".", and the file extension. */
  function NameFor(spriteName: string, format: Value, rails: bool): (r: string)
    ensures format == Str("css") && !rails ==> r == spriteName + ".css"
    ensures format == Str("css") && rails ==> r == spriteName + ".css.erb"
    ensures format == Str("scss") ==> r == "_" + spriteName + ".scss"
    ensures format != Str("css") && format != Str("scss") ==>
              r == "." + (if rails then "" else Interpolate(format))
  {
    var extension := if rails then RailsExtension(format) else Interpolate(format);
    SpriteNameFor(format, spriteName) + "." + extension
  }

  /** An scss stylesheet has the same name whether or not it targets rails. */
  lemma ScssNameIgnoresRails(spriteName: string)
    ensures NameFor(spriteName, Str("scss"), true) == NameFor(spriteName, Str("scss"), false)
  {
  }

  /**
   * `expand_template_path(format)`: "../stylesheets/template.<format>.erb"
   * expanded against this file's own absolute path, given as its segments.
   */
  function ExpandTemplatePath(sourceFile: seq<string>, format: Value): (r: string)
    ensures |sourceFile| >= 2 ==>
              r == Paths.Render(sourceFile[..|sourceFile| - 1]) + "/stylesheets/template." + Interpolate(format) + ".erb"
  {
    var file := "template." + Interpolate(format) + ".erb";
    var r := Paths.Render(Paths.Resolve(sourceFile, ["..", "stylesheets", file]));
    if |sourceFile| >= 2 then
      TemplatePathSegments(sourceFile, file);
      RenderTemplatePath(sourceFile[..|sourceFile| - 1], file);
      assert "/stylesheets/" + file == "/stylesheets/template." + Interpolate(format) + ".erb";
      r
    else
      r
  }

  lemma RenderTemplatePath(dir: seq<string>, file: string)
    requires |dir| >= 1
    ensures Paths.Render(dir + ["stylesheets", file]) == Paths.Render(dir) + "/stylesheets/" + file
  {
    Text.JoinSnoc(dir, "stylesheets", '/');
    Text.JoinSnoc(dir + ["stylesheets"], file, '/');
    assert dir + ["stylesheets", file] == dir + ["stylesheets"] + [file];
  }

  lemma TemplatePathSegments(sourceFile: seq<string>, file: string)
    requires |sourceFile| >= 1 && file != ".."
    ensures Paths.Resolve(sourceFile, ["..", "stylesheets", file]) ==
            sourceFile[..|sourceFile| - 1] + ["stylesheets", file]
  {
    var dir := sourceFile[..|sourceFile| - 1];
    var steps := ["..", "stylesheets", file];
    assert steps[1..] == ["stylesheets", file];
    assert Paths.Resolve(sourceFile, steps) == Paths.Resolve(dir, ["stylesheets", file]);
    assert ["stylesheets", file][1..] == [file];
    assert Paths.Resolve(dir, ["stylesheets", file]) == Paths.Resolve(dir + ["stylesheets"], [file]);
    assert Paths.Resolve(dir + ["stylesheets"], [file]) == Paths.Resolve(dir + ["stylesheets"] + [file], []);
    assert dir + ["stylesheets"] + [file] == dir + ["stylesheets", file];
  }

  datatype Stylesheet = Stylesheet(
    sprite: Sprites.Sprite,
    options: Options,
    destination: string,
    format: Value,
    rails: bool,
    templatePath: Value,
    path: string)
  {
    function Name(): (r: string)
      ensures format == Str("css") ==> r == sprite.name + (if rails then ".css.erb" else ".css")
      ensures format == Str("scss") ==> r == "_" + sprite.name + ".scss"
      ensures Templates.FormatOf(format).None? ==> r == "." + (if rails then "" else Interpolate(format))
    {
      NameFor(sprite.name, format, rails)
    }

    /** `template_options`: the options with `:destination` set to this destination. */
    function TemplateOptions(): (r: Options)
      ensures r.Keys == options.Keys + {"destination"}
      ensures r["destination"] == Str(destination)
      ensures forall k :: k in options && k != "destination" ==> r[k] == options[k]
    {
      options["destination" := Str(destination)]
    }
  }

  /**
   * `Stylesheet.new(sprite, destination, options)`; `sourceFile` is the path of
   * this file, against which the default template path is expanded.
   */
  function New(sprite: Sprites.Sprite, destination: string, options: Options, sourceFile: seq<string>): (s: Stylesheet)
    ensures s.sprite == sprite && s.destination == destination && s.options == options
    ensures s.format == Get(options, "format")
    ensures s.rails <==> Flag(options, "rails")
    ensures Flag(options, "template") ==> s.templatePath == options["template"]
    ensures !Flag(options, "template") ==> s.templatePath == Str(ExpandTemplatePath(sourceFile, s.format))
    ensures s.path == Paths.FileJoin(destination, s.Name())
  {
    var format := Get(options, "format");
    var rails := Flag(options, "rails");
    var templatePath := if Flag(options, "template") then options["template"]
                        else Str(ExpandTemplatePath(sourceFile, format));
    Stylesheet(sprite, options, destination, format, rails, templatePath,
               Paths.FileJoin(destination, NameFor(sprite.name, format, rails)))
  }

  /**
   * The template a stylesheet renders with: built from its template options,
   * it writes to the stylesheet's destination and keeps the stylesheet's
   * rails flag.
   */
  lemma TemplateOfStylesheet(s: Stylesheet)
    requires "root" in s.options && Truthy(s.options["root"]) ==> s.options["root"].Str?
    ensures Templates.New(s.TemplateOptions()).Ok?
    ensures var t := Templates.New(s.TemplateOptions()).value;
            t.destination == s.destination && t.options == s.TemplateOptions() &&
            (Templates.Rails(t) <==> Flag(s.options, "rails")) &&
            (Templates.Mixin(t) <==> Flag(s.options, "mixin"))
  {
  }

  /** "simple" as css lands in "<destination>/simple.css", as scss in "_simple.scss". */
  lemma NameExamples()
    ensures NameFor("simple", Str("css"), false) == "simple.css"
    ensures NameFor("simple", Str("css"), true) == "simple.css.erb"
    ensures NameFor("simple", Str("scss"), false) == "_simple.scss"
  {
  }
}
