# spriteful in Dafny

spriteful combines the PNG images of a directory into one sprite and writes
a stylesheet (CSS or SCSS) that gives every image a selector and a
background position inside that sprite. This project models the core that
computes what goes into the sprite and the stylesheet:

- `Sprites.Sprite` covers a sprite's name, its output path and its source images sorted by path. It also covers their enumeration as plain records (`each_image`).
- `Images.Image` is one image of a sprite. Its `top` and `left` offsets are updated in place.
- `Stylesheets` covers a stylesheet's file name, its output path, its template path and the options its template receives.
- `Templates` holds the helpers a stylesheet template calls:
  - class names derived from file names
  - the SCSS placeholder and mixin tokens
  - the sprite's URL: asset-pipeline, root-absolute or relative to the destination
  - the SVG data URI
- `SpriteDecorator` and `ImageDecorator` are the per-format strings a template prints for the sprite and for each image. These are the selector, the background image and position, and the scss name list and extension statement.

Support modules:

- `Options` models the Ruby option hash, Ruby truthiness and string interpolation of `nil`.
- `Text` provides `Join` (Ruby's `Array#join`) and `Split`, its inverse: a reader that keeps empty fields and is not Ruby's `String#split`. It also models decimal printing and parsing and the byte-wise string order used by `sort`.
- `Paths` models `File.basename`, `File.join` and a lexical `Pathname#relative_path_from` with its inverse, resolution.
- `Base64` models `Base64.encode64`: the RFC 4648 alphabet and padding, plus the line breaks every 60 output characters.

The model proves the following:

- Resolving a computed URL against its base gives back the sprite's path.
- Every image's background position reads back as its two offsets, signs included.
- The data URI decodes back to the image's bytes.
- For a sprite with at least one image and no space in any image class name, the scss name list splits back into the images' class names.
- The sprite's list is sorted and is a permutation of the images found. For files of one directory, the sort by path is the sort by file name.
- `each_image` yields one record per image, in order.

## Model

| member | source | states |
|---|---|---|
| Options.Truthy | lib/spriteful/stylesheet.rb:33 | a value is truthy exactly when it is neither `nil` nor `false` |
| Options.Flag | lib/spriteful/template.rb:62-69 | `mixin?`/`rails?` hold exactly when the key is present and its value is neither `nil` nor `false` |
| Options.Interpolate | lib/spriteful/stylesheet.rb:55 | `"#{v}"` is empty exactly for `nil` and the empty string; a string prints as itself, a boolean as "true"/"false" |
| Templates.New | lib/spriteful/template.rb:23-33 | within the modelled option values (nil, booleans, strings): construction succeeds exactly when `:destination` is a string and a truthy `:root` is a string; otherwise the error names the offending option. The root is kept exactly when the option is truthy |
| Templates.FormatOf | lib/spriteful/decorators/sprite.rb:12-18 | only "css" and "scss" select a `..._for_<format>` method; every other value selects none |
| Templates.ClassNameFor | lib/spriteful/template.rb:41-43 | there is no class name exactly when `split('.')` yields no field (an all-dots name). Otherwise the result is the text before the first dot, lower-cased, with `_` as `-`, and it holds no dot, underscore or upper-case ASCII letter |
| Templates.ClassNameForIdempotent | lib/spriteful/template.rb:41-43 | a non-empty class name is its own class name |
| Templates.ClassNameForField | lib/spriteful/template.rb:42 | a name whose first dot follows a non-empty field gives that field sanitised |
| Templates.ClassNameForExample | spec/spriteful/template_spec.rb:16-19 | "Thing_name.jpg" gives "thing-name" |
| Templates.Mixin | lib/spriteful/template.rb:62-64 | `mixin?` holds exactly when `:mixin` is present and neither `nil` nor `false` |
| Templates.Rails | lib/spriteful/template.rb:67-69 | `rails?` holds exactly when `:rails` is present and neither `nil` nor `false` |
| Templates.ExtensionPrefix | lib/spriteful/template.rb:49-51 | "@mixin " exactly when mixin is set, "%" exactly when it is not |
| Templates.ExtensionStrategy | lib/spriteful/template.rb:57-59 | "@include " for mixins; otherwise "@extend " followed by the placeholder prefix |
| Templates.ImageUrl | lib/spriteful/template.rb:77-86 | under rails: "sprites/" plus the file name. With a root: a leading "/", and the rest resolves from the root to the sprite path. Otherwise the URL resolves from the destination to the sprite path |
| Templates.ImageUrlBelowRoot | lib/spriteful/template.rb:81-82 | for a sprite under the root, the URL is the rest of the sprite path |
| Templates.ImageUrlFromRoot | lib/spriteful/template.rb:81-82 | with a root, the URL is "/" and the relative path from the root |
| Templates.ImageUrlFromDestination | lib/spriteful/template.rb:83-84 | without a root, the URL is the relative path from the destination |
| Templates.ImageUrlRailsExample | spec/spriteful/template_spec.rb:60-65 | the rails URL of icons.png is "sprites/icons.png" |
| Templates.ImageUrlRootExample | spec/spriteful/template_spec.rb:67-72 | root /w/tmp, sprite /w/tmp/sprites/icons.png: "/sprites/icons.png" |
| Templates.ImageUrlDestinationExample | spec/spriteful/template_spec.rb:74-78 | destination /w/tmp/output, same sprite: "../sprites/icons.png" |
| Templates.DataUri | lib/spriteful/template.rb:93-97 | a URI exactly for SVG images. It is the header and the unwrapped base 64 of the blob, it has no line break, and its body decodes to the blob |
| Templates.DataUriExample | spec/spriteful/template_spec.rb:81-85 | "<svg />" gives the header and "PHN2ZyAvPg==" |
| Base64.DecodeEncode | lib/spriteful/template.rb:95 | decoding the base 64 of any bytes gives those bytes back |
| Base64.EncodeChars | lib/spriteful/template.rb:95 | base 64 output uses only the alphabet and "=" |
| Base64.EncodeAppend | lib/spriteful/template.rb:95 | encoding splits at any multiple of three bytes |
| Base64.Encode64 | lib/spriteful/template.rb:95 | `encode64` is empty exactly for no bytes, and otherwise ends with a line break |
| Base64.StrippedEncode64 | lib/spriteful/template.rb:95 | `encode64` with its line breaks removed is the unwrapped encoding |
| Base64.StripLineBreaks | lib/spriteful/template.rb:95 | the `gsub` leaves no line break |
| Base64.EncodeExample | spec/spriteful/template_spec.rb:83-84 | "<svg />" encodes as "PHN2ZyAvPg==" |
| Base64.SextetRoundTrip | lib/spriteful/template.rb:95 | each alphabet character reads back as its 6-bit value |
| Paths.Basename | lib/spriteful/image.rb:35 | a basename other than "/" holds no slash; a non-empty path has a non-empty basename; a name without any slash is its own basename |
| Paths.BasenameOfChild | lib/spriteful/image.rb:35 | the basename of dir + "/" + name is name |
| Paths.FileJoin | lib/spriteful/sprite.rb:27 | joining a directory without a trailing slash and a relative name puts one "/" between them |
| Paths.ParseRender | lib/spriteful/template.rb:78 | a normalised absolute path and its segments convert into each other without loss |
| Paths.RenderParse | lib/spriteful/template.rb:78 | printing the parsed segments of a normalised absolute path gives the path back |
| Paths.RelativeFrom | lib/spriteful/template.rb:82-84 | `relative_path_from` yields only real segments and ".." steps (its partner is `Paths.ResolveRelativeFrom`) |
| Paths.RelativeString | lib/spriteful/template.rb:82-84 | `Pathname#to_s` of no steps is "."; a path of relative steps prints as a non-empty string that does not start with "/", so the root URL gets exactly one leading slash |
| Paths.ResolveRelativeFrom | lib/spriteful/template.rb:82-84 | resolving `relative_path_from(base)` against base gives the target |
| Paths.RelativeFromAncestor | lib/spriteful/template.rb:82 | below an ancestor, the relative path is the rest of the target |
| Paths.RelativeStringSteps | lib/spriteful/template.rb:84 | the printed relative path reads back as its steps |
| Text.Join | lib/spriteful/decorators/sprite.rb:25 | `join` of no parts is empty, and the result starts with the first part |
| Text.SplitJoin | lib/spriteful/decorators/sprite.rb:25 | joining fields free of the separator and splitting again gives the fields |
| Text.JoinSplit | lib/spriteful/template.rb:78 | joining the fields `Split` reads from a path string gives the string back, so parsing a path loses nothing |
| Text.IntToDecimal | lib/spriteful/decorators/image.rb:21 | `Integer#to_s`: digits for a non-negative value, a minus sign and digits for a negative one; never a space or "p", so the position's fields stay apart |
| Text.IntToDecimalRoundTrip | lib/spriteful/decorators/image.rb:21 | a printed integer, sign included, parses back to itself |
| Text.Le | lib/spriteful/sprite.rb:24 | Ruby's string order: a prefix comes first, and strings with different first characters are ordered by that character |
| Text.LeFirstDifference | lib/spriteful/sprite.rb:24 | after a common part, the string that ends there comes first; otherwise the first differing character decides |
| Text.LeTotal | lib/spriteful/sprite.rb:24 | any two paths are ordered one way or the other |
| Text.LeTransitive | lib/spriteful/sprite.rb:24 | the path order is transitive |
| Text.LeAntisymmetric | lib/spriteful/sprite.rb:24 | paths ordered both ways are equal |
| Text.LeCommonPrefix | lib/spriteful/sprite.rb:24 | a shared prefix does not change the order |
| Images.Image.constructor | lib/spriteful/image.rb:32-41 | source and path are stored; the name is the basename of the path; the size is the source's; top and left start at 0 |
| Images.Image.SetTop | lib/spriteful/image.rb:17-18 | `top=` sets top and leaves left unchanged |
| Images.Image.SetLeft | lib/spriteful/image.rb:20-21 | `left=` sets left and leaves top unchanged |
| Images.ImageExample | spec/image_spec.rb:8 | an image at "path/to/image.png" is named "image.png", keeps its size and moves to the offsets set |
| Sprites.CreateImage | lib/spriteful/sprite.rb:65-68 | the record keeps the image's path and size; its name is the basename of that path, holds no slash (unless it is "/") and is non-empty for a non-empty path |
| Sprites.CreateImageInDirectory | lib/spriteful/sprite.rb:65-68 | a file of a directory is recorded under its file name, full path, columns and rows |
| Sprites.Insert | lib/spriteful/sprite.rb:24 | inserting into a sorted list keeps it sorted and adds exactly that element |
| Sprites.SortByFilename | lib/spriteful/sprite.rb:23-24 | the result is sorted by path and is a permutation of the input |
| Sprites.SortedByFilenameInDirectory | lib/spriteful/sprite.rb:23-24 | files of one directory are sorted by path exactly when they are sorted by file name |
| Sprites.SortExample | spec/sprite_spec.rb:5-12 | red.png and blue.png are listed blue first |
| Sprites.RecordsOf | lib/spriteful/sprite.rb:50-55 | one record per listed image, in list order |
| Sprites.Sprite.constructor | lib/spriteful/sprite.rb:22-29 | name is the source's basename; path is destination/name.png; the list is the found images sorted, a permutation of them |
| Sprites.Sprite.EachImage | lib/spriteful/sprite.rb:50-55 | yields exactly one record per stored image, in stored order |
| Sprites.Sprite.Images | lib/spriteful/sprite.rb:57 | `images` yields the same records as `each_image` |
| Sprites.SpritePath | lib/spriteful/sprite.rb:26-27 | the sprite path is destination + "/" + name + ".png", and its file name is name + ".png" |
| Sprites.SpriteExample | lib/spriteful/sprite.rb:26-27 | the sprite of "spec/fixtures/simple" into "tmp" is "simple" at "tmp/simple.png" |
| Stylesheets.SpriteNameFor | lib/spriteful/stylesheet.rb:98-105 | `sprite_name`: exactly the sprite's name for css, "_" and the name for scss, empty for any other format |
| Stylesheets.RailsExtension | lib/spriteful/stylesheet.rb:89-96 | `rails_extension`: exactly "css.erb" for css (the ERB pass over plain CSS), "scss" for scss, and empty exactly for any other format; a non-empty result begins with the format's name |
| Stylesheets.Stylesheet.Name | lib/spriteful/stylesheet.rb:53-56 | css: name.css, or name.css.erb under rails; scss: _name.scss; another format: "." and the format, or "." alone under rails |
| Stylesheets.NameFor | lib/spriteful/stylesheet.rb:53-56 | css: name.css, or name.css.erb under rails; scss: _name.scss either way; another format: "." and the format, or "." alone under rails |
| Stylesheets.ScssNameIgnoresRails | lib/spriteful/stylesheet.rb:89-105 | the scss file name does not depend on the rails flag |
| Stylesheets.NameExamples | lib/spriteful/stylesheet.rb:53-56 | "simple" gives simple.css, simple.css.erb and _simple.scss |
| Stylesheets.ExpandTemplatePath | lib/spriteful/stylesheet.rb:69-71 | the default template is template.<format>.erb inside the `stylesheets` subdirectory of the directory holding this source file |
| Stylesheets.New | lib/spriteful/stylesheet.rb:27-37 | stores sprite, destination and options; the format is `options[:format]`; rails is the truthiness of `:rails`; the template is `:template` when truthy, else the default; the path is the destination joined with the name |
| Stylesheets.Stylesheet.TemplateOptions | lib/spriteful/stylesheet.rb:75-77 | the options with `:destination` added or replaced, every other key unchanged |
| Stylesheets.TemplateOfStylesheet | lib/spriteful/stylesheet.rb:44-47 | the template built for rendering exists, writes to the stylesheet's destination and has the stylesheet's rails and mixin flags |
| SpriteDecorator.ClassNameOf | lib/spriteful/decorators/sprite.rb:35-37 | fails exactly on an all-dots name; otherwise it is `class_name_for` of the name |
| SpriteDecorator.ClassName | lib/spriteful/decorators/sprite.rb:12-14 | unknown format: an error. css: the class name. scss: the extension prefix, the class name and "-sprite" |
| SpriteDecorator.BackgroundImage | lib/spriteful/decorators/sprite.rb:16-18 | an error for an unknown format. Otherwise `url('…')`, or under rails `<%= image_url('…') %>` for css and `image-url('…')` for scss, around the sprite's URL. The URL's inputs need to be valid only for css and scss, because an unknown format fails before `image_url` runs |
| SpriteDecorator.Extension | lib/spriteful/decorators/sprite.rb:20-22 | the extension strategy, the class name and "-sprite;" |
| SpriteDecorator.ExtensionUsesScssClassName | lib/spriteful/decorators/sprite.rb:20-22 | the extension statement reuses the selector the scss class name declares: `@extend` of the placeholder, or `@include` of the mixin's name |
| SpriteDecorator.ExtensionExamples | lib/spriteful/decorators/sprite.rb:20-22 | sprite "simple" gives "@extend %simple-sprite;" or "@include simple-sprite;" |
| SpriteDecorator.NamesOf | lib/spriteful/decorators/sprite.rb:25 | succeeds exactly when no image name is all dots; one class name per image, in order |
| SpriteDecorator.VarWithNameList | lib/spriteful/decorators/sprite.rb:24-27 | "$<class>-sprite-names: " then the image class names joined by spaces, then ";" |
| SpriteDecorator.NameListSplits | lib/spriteful/decorators/sprite.rb:24-27 | for a sprite with at least one image and no space in any image class name, the list splits back into exactly those names |
| ImageDecorator.ClassName | lib/spriteful/decorators/image.rb:16-18 | `class_name_for` of the image's name |
| ImageDecorator.BackgroundPosition | lib/spriteful/decorators/image.rb:20-22 | the position reads back as (left, top) |
| ImageDecorator.PositionRoundTrip | lib/spriteful/decorators/image.rb:21 | "<left>px <top>px" parses back to both offsets |
| ImageDecorator.PositionExample | lib/spriteful/decorators/image.rb:20-22 | an image moved to top -16 is at "0px -16px" |
| ImageDecorator.Selector | lib/spriteful/decorators/image.rb:24-26 | unknown format: an error. It succeeds exactly when both class names exist. css: "." sprite "." image. scss: prefix, sprite, "-sprite-", image |
| ImageDecorator.CssSelectorClasses | lib/spriteful/decorators/image.rb:38-40 | the css selector names exactly two classes, the sprite's and then the image's |
| ImageDecorator.CssSelectorExample | spec/stylesheet_spec.rb:13-14 | image blue.png of sprite simple: ".simple.blue" |
| ImageDecorator.ScssSelectorExample | spec/stylesheet_spec.rb:21-22 | the same in scss with placeholders: "%simple-sprite-blue" |
| ImageDecorator.DataUri | lib/spriteful/decorators/image.rb:28-30 | the template's data URI of the image: present exactly for SVG, with the header, decoding to the blob |

## Left out

- `Template#render` and `Stylesheet#render` evaluate ERB templates and read files. Only the options given to the template (`TemplateOfStylesheet`) are modelled. `read_template` reads a file and is not modelled.
- `Sprite#combine!` is left out. It appends images with RMagick, creates directories and writes the PNG, and it updates no state the model holds.
- The directory glob and the loading of each PNG by RMagick are inputs. The constructor receives the loaded images (`found`), each with its path as `filename`. It sorts those by filename, which gives the same list as sorting the paths before loading them.
- `File.expand_path` depends on the working directory. Sprite, root and destination paths are normalised absolute paths, a precondition of `Templates.ImageUrl`. The template's root is taken as already expanded. `relative_path_from` is modelled lexically, without symlinks.
- `expand_template_path` expands against the source file's own location. That location is a parameter, given as path segments.
- `Template#format`, `Sprite#filename`, `Image#svg?` and `Image#blob` are called but not defined in the modelled files. The format is a parameter of the decorators. The sprite's file name is the basename of its path. The SVG flag and the blob are parameters.
- `Paths.FileJoin` drops at most one separator on each side of the boundary before joining with "/". How `File.join` treats several separators meeting at the boundary is not modelled. Only joins of a left part without a trailing slash and a right part without a leading one are relied on.
- `Templates.LowerAscii` lower-cases ASCII letters only, while `String#downcase` also folds other letters.
- `Text.Le` compares characters where Ruby compares bytes. The two orders agree on ASCII file names.
- `SpriteDecorator.NameListSplits` assumes class names without spaces and a sprite with at least one image. A file name with a space makes the scss name list ambiguous. An empty source directory is not an error in `Sprite#initialize`; it prints an empty list, and `Split` reads that back as one empty name. It cannot be told apart from a single image whose class name is empty, such as ".png".
- Which image class the decorators wrap is not fixed by the modelled files. `ImageDecorator` wraps `Images.Image`, the class with `top`/`left`. `var_with_name_list` reads the sprite's own image records.
- Option values are `nil`, booleans or strings. A `Pathname` option is represented by its string; the template's root test passes one as `:root`. Ruby's `Pathname.new` and `File.expand_path` also accept any object that responds to `to_path` or `to_str`, where `Templates.New` requires a string.
- `Templates.Template` and `Stylesheets.Stylesheet` hold snapshots of their option hashes, taken at construction. The Ruby objects keep the caller's hash by reference. A later change to that hash therefore reaches `mixin?` and `rails?` of a template. It also reaches the hash `Stylesheet#render` merges at render time, and so the `:mixin`, `:rails` and `:root` its template sees. `Stylesheets.Stylesheet.TemplateOptions` is computed from the snapshot instead. Only `@destination` and `@root` of a template, and `@format`, `@rails`, `@template_path` and `@path` of a stylesheet, are fixed at construction in Ruby.
- Several tests exercise code that is not in the modelled files and are not modelled: `cli_options`, `scale?`, `combined_path`, the quoted data URI, `Image.new` with one argument, and `Stylesheet.new` with a format string as its options. The model follows the code.
- The optimiser, the command-line interface, the shell output, the global options and the error for an empty source directory are left out. So is the template's `sprite` reader.
