/**
 * The two `\includegraphics` handlers: `process_graphics` for a single image,
 * whose file is looked up through an existence oracle `fileExists` standing
 * for `os.path.exists`, and `process_two_images_on_same_line` for a pair of
 * images laid out as two Beamer columns.
 */
module Images {
  import opened Wrappers
  import opened Text

  const IncludeGraphics: string := "\\includegraphics"

  /** The extensions tried, in order, for an image named without one. */
  const Extensions: seq<string> := [".png", ".jpg", ".jpeg", ".gif", ".bmp", ".pdf"]

  /** `os.path.join(dir, rel)` on POSIX paths. */
  function PathJoin(dir: string, rel: string): (r: string)
    ensures StartsWith(rel, "/") ==> r == rel
    ensures !StartsWith(rel, "/") ==> StartsWith(r, dir) && EndsWith(r, rel)
  {
    if StartsWith(rel, "/") then rel
    else if dir == [] || EndsWith(dir, "/") then
      assert (dir + rel)[..|dir|] == dir && (dir + rel)[|dir|..] == rel;
      dir + rel
    else
      assert (dir + "/" + rel)[..|dir|] == dir && (dir + "/" + rel)[|dir| + 1..] == rel;
      dir + "/" + rel
  }

  /** The image name: the text between the first `{` and the first `}`. */
  function GraphicPath(l: string): string {
    PySlice(l, Find(l, "{") + 1, Find(l, "}"))
  }

  /** The index of the first extension from `j` on whose file exists. */
  function FirstExistingFrom(base: string, fileExists: string -> bool, j: nat): (r: Option<nat>)
    requires j <= |Extensions|
    ensures r.Some? ==> j <= r.value < |Extensions| && fileExists(base + Extensions[r.value])
    ensures r.Some? ==> forall m :: j <= m < r.value ==> !fileExists(base + Extensions[m])
    ensures r.None? ==> forall m :: j <= m < |Extensions| ==> !fileExists(base + Extensions[m])
    decreases |Extensions| - j
  {
    if j == |Extensions| then None
    else if fileExists(base + Extensions[j]) then Some(j)
    else FirstExistingFrom(base, fileExists, j + 1)
  }

  function FirstExisting(base: string, fileExists: string -> bool): Option<nat> {
    FirstExistingFrom(base, fileExists, 0)
  }

  /** The text after `key` up to the next `]` (Python slicing when there is none). */
  function AttrText(l: string, key: string): string
    requires Find(l, key) != -1
  {
    var i := Find(l, key);
    PySlice(l, i + |key|, FindFrom(l, "]", i))
  }

  /**
   * One `key=value` option of `\includegraphics[...]`: `tag` followed by the
   * first word of the value, nothing when `key` does not occur, and the
   * IndexError of `split()[0]` when the value is blank. The `strip()` of that
   * word changes nothing, since a word of `split()` holds no whitespace.
   */
  function Attr(l: string, key: string, tag: string): (r: Result<string>)
    ensures Find(l, key) == -1 ==> r == Ok([])
  {
    if Find(l, key) == -1 then Ok([])
    else
      match FirstWord(AttrText(l, key))
      case None => Err(FirstWordOfBlank)
      case Some(w) => Ok(tag + w)
  }

  /**
   * An option that occurs yields `tag` and the first word of its value, or a
   * crash exactly when that value is blank.
   */
  lemma AttrMeaning(l: string, key: string, tag: string)
    requires Find(l, key) != -1
    ensures Attr(l, key, tag).Err? <==> AllSpace(AttrText(l, key))
    ensures Attr(l, key, tag).Ok? ==>
      exists w :: Attr(l, key, tag).value == tag + w && FirstWord(AttrText(l, key)) == Some(w)
  {
  }

  /** The attribute text: the width, then the height, each optional. */
  function Attrs(l: string): Result<string> {
    match Attr(l, "width=", " :width ")
    case Err(f) => Err(f)
    case Ok(a) =>
      match Attr(l, "height=", " :height ")
      case Err(f) => Err(f)
      case Ok(b) => Ok(a + b)
  }

  /** `' ' * (indent_level * 2)`. */
  function Pad(indent: int): (r: string)
    ensures |r| == (if indent <= 0 then 0 else 2 * indent)
    ensures forall k :: 0 <= k < |r| ==> r[k] == ' '
  {
    Repeat(' ', indent * 2)
  }

  /** `process_graphics`: the attribute line and the link line, or nothing. */
  function Graphics(l: string, indent: int, dir: string, fileExists: string -> bool): Result<seq<string>> {
    if !Contains(l, IncludeGraphics) then Ok([])
    else
      var rel := GraphicPath(l);
      match FirstExisting(PathJoin(dir, rel), fileExists)
      case None => Ok([])
      case Some(j) =>
        match Attrs(l)
        case Err(f) => Err(f)
        case Ok(attrs) =>
          Ok([Pad(indent) + "#+attr_latex:" + attrs, Pad(indent) + "[[file:" + rel + Extensions[j] + "]]"])
  }

  /**
   * Nothing is emitted for a line without `\includegraphics`, nor when no
   * candidate file exists.
   */
  lemma GraphicsNothing(l: string, indent: int, dir: string, fileExists: string -> bool)
    requires !Contains(l, IncludeGraphics)
      || forall m :: 0 <= m < |Extensions| ==> !fileExists(PathJoin(dir, GraphicPath(l)) + Extensions[m])
    ensures Graphics(l, indent, dir, fileExists) == Ok([])
  {
  }

  /**
   * When the file exists with extension `Extensions[j]` and with none before
   * it, exactly two lines are emitted, both indented by `2 * indent` spaces:
   * the attributes, then a link to the image with that extension. A blank
   * width or height value is a crash instead.
   */
  lemma GraphicsChoosesFirstExisting(l: string, indent: int, dir: string, fileExists: string -> bool, j: nat)
    requires Contains(l, IncludeGraphics)
    requires j < |Extensions| && fileExists(PathJoin(dir, GraphicPath(l)) + Extensions[j])
    requires forall m :: 0 <= m < j ==> !fileExists(PathJoin(dir, GraphicPath(l)) + Extensions[m])
    ensures Attrs(l).Err? ==> Graphics(l, indent, dir, fileExists) == Err(Attrs(l).fault)
    ensures Attrs(l).Ok? ==>
      Graphics(l, indent, dir, fileExists) == Ok([Pad(indent) + "#+attr_latex:" + Attrs(l).value,
          Pad(indent) + "[[file:" + GraphicPath(l) + Extensions[j] + "]]"])
  {
  }

  /** Without `width=` and `height=` the attribute line is bare. */
  lemma AttrsNone(l: string)
    requires !Contains(l, "width=") && !Contains(l, "height=")
    ensures Attrs(l) == Ok([])
  {
    assert Attr(l, "width=", " :width ") == Ok([]);
    assert Attr(l, "height=", " :height ") == Ok([]);
    var empty: string := [];
    assert empty + empty == empty;
  }

  /**
   * Lines 59-66 of `process_graphics`: the first extension whose file exists,
   * tried in order, and the image path with that extension.
   */
  method FindImageFile(rel: string, full: string, fileExists: string -> bool)
    returns (found: bool, path: string)
    ensures found <==> FirstExisting(full, fileExists).Some?
    ensures found ==> path == rel + Extensions[FirstExisting(full, fileExists).value]
  {
    found := false;
    path := "";
    for j := 0 to |Extensions|
      invariant !found
      invariant FirstExisting(full, fileExists) == FirstExistingFrom(full, fileExists, j)
    {
      if fileExists(full + Extensions[j]) {
        path := rel + Extensions[j];
        found := true;
        assert FirstExisting(full, fileExists) == Some(j);
        break;
      }
    }
  }

  /**
   * One of the two identical blocks of lines 74-84 of `process_graphics`:
   * `tag` and the first word of the value after `key`, when `key` occurs.
   */
  method OptionAttr(l: string, key: string, tag: string) returns (r: Result<string>)
    ensures r == Attr(l, key, tag)
  {
    var index := Find(l, key);
    if index == -1 {
      return Ok("");
    }
    var valueEnd := FindFrom(l, "]", index);
    var text := PySlice(l, index + |key|, valueEnd);
    assert text == AttrText(l, key);
    var value := FirstWord(text);
    if value.None? {
      return Err(FirstWordOfBlank);
    }
    return Ok(tag + value.value);
  }

  /** Lines 73-84 of `process_graphics`: the width, then the height option. */
  method GraphicAttrs(l: string) returns (r: Result<string>)
    ensures r == Attrs(l)
  {
    var attrs := "";
    var width := OptionAttr(l, "width=", " :width ");
    if width.Err? {
      return Err(width.fault);
    }
    EmptyLeft(attrs, width.value);
    attrs := attrs + width.value;
    var height := OptionAttr(l, "height=", " :height ");
    if height.Err? {
      return Err(height.fault);
    }
    attrs := attrs + height.value;
    return Ok(attrs);
  }

  /** `process_graphics`: nothing, or the attribute line and the link line. */
  method ProcessGraphics(l: string, indent: int, dir: string, fileExists: string -> bool)
    returns (r: Result<seq<string>>)
    ensures r == Graphics(l, indent, dir, fileExists)
  {
    var out: seq<string> := [];
    if Contains(l, IncludeGraphics) {
      var rel := PySlice(l, Find(l, "{") + 1, Find(l, "}"));
      assert rel == GraphicPath(l);
      var full := PathJoin(dir, rel);
      var found, path := FindImageFile(rel, full, fileExists);
      if !found {
        assert Graphics(l, indent, dir, fileExists) == Ok([]);
        return Ok(out);
      }
      ghost var j := FirstExisting(full, fileExists).value;
      var attrs := GraphicAttrs(l);
      if attrs.Err? {
        assert Graphics(l, indent, dir, fileExists) == Err(attrs.fault);
        return Err(attrs.fault);
      }
      var indentSpaces := Repeat(' ', indent * 2);
      assert indentSpaces == Pad(indent);
      EmptyLeft(out, [indentSpaces + "#+attr_latex:" + attrs.value]);
      out := out + [indentSpaces + "#+attr_latex:" + attrs.value];
      out := out + [indentSpaces + "[[file:" + path + "]]"];
      ConcatAssoc(indentSpaces + "[[file:", rel, Extensions[j]);
      assert out == [Pad(indent) + "#+attr_latex:" + attrs.value, Pad(indent) + "[[file:" + rel + Extensions[j] + "]]"];
      assert Graphics(l, indent, dir, fileExists) == Ok(out);
    } else {
      assert Graphics(l, indent, dir, fileExists) == Ok([]);
    }
    return Ok(out);
  }

  /** `[part.strip() for part in parts if part.strip()]`. */
  function NonBlankStripped(parts: seq<string>): (r: seq<string>)
    ensures |r| <= |parts|
    ensures forall k :: 0 <= k < |r| ==> r[k] != []
    decreases |parts|
  {
    if parts == [] then []
    else
      var t := Strip(parts[0]);
      (if t == [] then [] else [t]) + NonBlankStripped(parts[1..])
  }

  /** The non-blank pieces around the `\includegraphics` commands of a line. */
  function ImageParts(l: string): seq<string> {
    NonBlankStripped(SplitOn(l, IncludeGraphics))
  }

  /**
   * On a line that takes the two-images branch (exactly two
   * `\includegraphics`), the split gives three pieces, so at most three
   * survive the filter.
   */
  lemma TwoImagesSplit(l: string)
    requires Count(l, IncludeGraphics) == 2
    ensures |SplitOn(l, IncludeGraphics)| == 3 && |ImageParts(l)| <= 3
  {
    SplitCount(l, IncludeGraphics);
  }

  /** `part[width_start:width_end]`: the text after `width=` up to the next `}`. */
  function WidthText(part: string): string {
    var widthStart := Find(part, "width=") + 6;
    PySlice(part, widthStart, FindFrom(part, "}", widthStart))
  }

  /** The image name: the text after the first `{` up to the next `}`. */
  function RawImagePath(part: string): string {
    var pathStart := Find(part, "{") + 1;
    PySlice(part, pathStart, FindFrom(part, "}", pathStart))
  }

  /** The image path with `.png` appended unless it already ends so. */
  function PngName(path: string): (r: string)
    ensures EndsWith(r, ".png")
    ensures r == path || r == path + ".png"
    ensures EndsWith(path, ".png") ==> r == path
  {
    if EndsWith(path, ".png") then path
    else
      assert (path + ".png")[|path|..] == ".png";
      path + ".png"
  }

  /** The six lines of one Beamer column holding one image. */
  function ColumnLines(level: int, name: string, width: string, image: string): seq<string> {
    [Repeat('*', level + 1) + " " + name + " :BMCOL:",
     ":PROPERTIES:",
     ":BEAMER_col: " + width,
     ":END:",
     "#+ATTR_LATEX: :width 1\\linewidth",
     "[[file:" + image + "]]"]
  }

  /**
   * The column for the `i`-th image: left (0.49) for the first, right (0.48)
   * for the second; a blank width text is the IndexError of `split()[0]`.
   */
  function ImageColumn(part: string, i: nat, level: int): Result<seq<string>> {
    if FirstWord(WidthText(part)).None? then Err(FirstWordOfBlank)
    else
      Ok(ColumnLines(level, if i == 0 then "Col left" else "Col right",
                     if i == 0 then "0.49" else "0.48", PngName(RawImagePath(part))))
  }

  /** `process_two_images_on_same_line`. */
  function TwoImages(l: string, level: int): Result<seq<string>> {
    var parts := ImageParts(l);
    if |parts| != 2 then Ok([])
    else
      match ImageColumn(parts[0], 0, level)
      case Err(f) => Err(f)
      case Ok(left) =>
        match ImageColumn(parts[1], 1, level)
        case Err(f) => Err(f)
        case Ok(right) => Ok(left + right)
  }

  /**
   * One column: a crash exactly when the width text is blank, otherwise six
   * lines headed `Col left` (0.49) for the first image or `Col right` (0.48)
   * for the second, ending in the link to the image.
   */
  lemma ColumnShape(part: string, i: nat, level: int)
    ensures ImageColumn(part, i, level).Err? <==> AllSpace(WidthText(part))
    ensures ImageColumn(part, i, level).Ok? ==>
      var c, stars := ImageColumn(part, i, level).value, Repeat('*', level + 1);
      |c| == 6
      && c[0] == stars + (if i == 0 then " Col left :BMCOL:" else " Col right :BMCOL:")
      && c[1] == ":PROPERTIES:"
      && c[2] == (if i == 0 then ":BEAMER_col: 0.49" else ":BEAMER_col: 0.48")
      && c[3] == ":END:"
      && c[4] == "#+ATTR_LATEX: :width 1\\linewidth"
      && c[5] == "[[file:" + PngName(RawImagePath(part)) + "]]"
  {
    if FirstWord(WidthText(part)).Some? {
      var stars := Repeat('*', level + 1);
      var img := PngName(RawImagePath(part));
      if i == 0 {
        ColumnLinesShape(level, "Col left", "0.49", img);
        ColumnLiterals();
      } else {
        ColumnLinesShape(level, "Col right", "0.48", img);
        ColumnLiterals();
      }
    }
  }

  lemma ColumnLinesShape(level: int, name: string, width: string, image: string)
    ensures var c := ColumnLines(level, name, width, image);
      |c| == 6
      && c[0] == Repeat('*', level + 1) + (" " + name + " :BMCOL:")
      && c[2] == ":BEAMER_col: " + width
  {
    HeadingText(Repeat('*', level + 1), name);
  }

  lemma ColumnLiterals()
    ensures " " + "Col left" + " :BMCOL:" == " Col left :BMCOL:"
    ensures " " + "Col right" + " :BMCOL:" == " Col right :BMCOL:"
    ensures ":BEAMER_col: " + "0.49" == ":BEAMER_col: 0.49"
    ensures ":BEAMER_col: " + "0.48" == ":BEAMER_col: 0.48"
  {
  }

  /**
   * Nothing unless the line splits into exactly two non-blank parts; then a
   * crash exactly when one of the width texts is blank, and otherwise twelve
   * lines: a left column (0.49) and a right column (0.48), each a heading one
   * level below `level`, its properties, and a link to its image with `.png`
   * appended unless already there.
   */
  lemma TwoImagesShape(l: string, level: int)
    ensures |ImageParts(l)| != 2 ==> TwoImages(l, level) == Ok([])
    ensures |ImageParts(l)| == 2 ==>
      (TwoImages(l, level).Err? <==>
        AllSpace(WidthText(ImageParts(l)[0])) || AllSpace(WidthText(ImageParts(l)[1])))
    ensures |ImageParts(l)| == 2 && TwoImages(l, level).Ok? ==>
      var r, parts, stars := TwoImages(l, level).value, ImageParts(l), Repeat('*', level + 1);
      |r| == 12
      && r[0] == stars + " Col left :BMCOL:" && r[6] == stars + " Col right :BMCOL:"
      && r[1] == r[7] == ":PROPERTIES:"
      && r[2] == ":BEAMER_col: 0.49" && r[8] == ":BEAMER_col: 0.48"
      && r[3] == r[9] == ":END:"
      && r[4] == r[10] == "#+ATTR_LATEX: :width 1\\linewidth"
      && r[5] == "[[file:" + PngName(RawImagePath(parts[0])) + "]]"
      && r[11] == "[[file:" + PngName(RawImagePath(parts[1])) + "]]"
  {
    var parts := ImageParts(l);
    if |parts| == 2 {
      ColumnShape(parts[0], 0, level);
      ColumnShape(parts[1], 1, level);
      if TwoImages(l, level).Ok? {
        var left, right := ImageColumn(parts[0], 0, level).value, ImageColumn(parts[1], 1, level).value;
        assert TwoImages(l, level).value == left + right;
        SixAndSix(left, right);
      }
    }
  }

  lemma SixAndSix(left: seq<string>, right: seq<string>)
    requires |left| == 6 && |right| == 6
    ensures |left + right| == 12
    ensures (left + right)[..6] == left && (left + right)[6..] == right
  {
  }

  lemma HeadingText(stars: string, name: string)
    ensures stars + " " + name + " :BMCOL:" == stars + (" " + name + " :BMCOL:")
  {
    ConcatAssoc(stars, " ", name);
    ConcatAssoc(stars, " " + name, " :BMCOL:");
  }

  /**
   * The body of the loop of `process_two_images_on_same_line` for the
   * `i`-th part: the width is extracted only for its IndexError, the image
   * path gets `.png` appended unless already there, and six lines are built.
   */
  method ImageColumnLines(part: string, i: nat, level: int) returns (r: Result<seq<string>>)
    ensures r == ImageColumn(part, i, level)
  {
    var widthStart := Find(part, "width=") + 6;
    var widthEnd := FindFrom(part, "}", widthStart);
    var width := FirstWord(PySlice(part, widthStart, widthEnd));
    assert PySlice(part, widthStart, widthEnd) == WidthText(part);
    if width.None? {
      return Err(FirstWordOfBlank);
    }
    var pathStart := Find(part, "{") + 1;
    var pathEnd := FindFrom(part, "}", pathStart);
    var imagePath := PySlice(part, pathStart, pathEnd);
    assert imagePath == RawImagePath(part);
    if !EndsWith(imagePath, ".png") {
      imagePath := imagePath + ".png";
    }
    var colName := if i == 0 then "Col left" else "Col right";
    var colWidth := if i == 0 then "0.49" else "0.48";
    return Ok([Repeat('*', level + 1) + " " + colName + " :BMCOL:",
               ":PROPERTIES:",
               ":BEAMER_col: " + colWidth,
               ":END:",
               "#+ATTR_LATEX: :width 1\\linewidth",
               "[[file:" + imagePath + "]]"]);
  }

  /** `process_two_images_on_same_line`, loop and all. */
  method ProcessTwoImagesOnSameLine(l: string, level: int) returns (r: Result<seq<string>>)
    ensures r == TwoImages(l, level)
  {
    var out: seq<string> := [];
    var parts := ImageParts(l);
    if |parts| != 2 {
      return Ok(out);
    }
    for i := 0 to |parts|
      invariant i == 0 ==> out == []
      invariant i == 1 ==> ImageColumn(parts[0], 0, level) == Ok(out)
      invariant i == 2 ==> TwoImages(l, level) == Ok(out)
    {
      var column := ImageColumnLines(parts[i], i, level);
      if column.Err? {
        return Err(column.fault);
      }
      if i == 0 {
        EmptyLeft(out, column.value);
      }
      out := out + column.value;
    }
    return Ok(out);
  }
}
