/**
 * The colour generator's helpers: `isValidColor`, which accepts hex colours
 * and the functional notations by their prefix, and `generateScss`, which
 * prints a palette (and optionally a dark palette) as an SCSS `$colors` map.
 */
module ColorHelpers {
  import opened Wrappers
  import opened Strings

  // ---------------------------------------------------------------------------
  // isValidColor
  // ---------------------------------------------------------------------------

  /** `[0-9A-F]` under the `i` flag. */
  predicate IsHexDigit(c: char) {
    ('0' <= c <= '9') || ('a' <= c <= 'f') || ('A' <= c <= 'F')
  }

  predicate AllHexDigits(s: string) {
    forall i :: 0 <= i < |s| ==> IsHexDigit(s[i])
  }

  /** `/^#([0-9A-F]{3}){1,2}$/i`: a `#` and then three or six hex digits, in either case. */
  predicate IsHexColor(color: string) {
    |color| >= 1 && color[0] == '#' && (|color| == 4 || |color| == 7) && AllHexDigits(color[1..])
  }

  /** `/^rgba?\(/` */
  predicate IsRgb(color: string) {
    StartsWith(color, "rgb(") || StartsWith(color, "rgba(")
  }

  /** `/^hsla?\(/` */
  predicate IsHsl(color: string) {
    StartsWith(color, "hsl(") || StartsWith(color, "hsla(")
  }

  /** `/^oklch\(/` */
  predicate IsOklch(color: string) {
    StartsWith(color, "oklch(")
  }

  /** `isValidColor`: the four tests in the source's order; the first that passes accepts. */
  function IsValidColor(color: string): (r: bool)
    ensures r <==> IsHexColor(color) || IsRgb(color) || IsHsl(color) || IsOklch(color)
    ensures r ==> |color| >= 4 && color[0] in {'#', 'r', 'h', 'o'}
  {
    if IsHexColor(color) then true
    else if IsRgb(color) then true
    else if IsHsl(color) then true
    else if IsOklch(color) then true
    else false
  }

  /** A `#` and hex-free text: valid exactly when it is three or six hex digits. */
  lemma HexColorIff(digits: string)
    ensures IsValidColor("#" + digits) <==> (|digits| == 3 || |digits| == 6) && AllHexDigits(digits)
  {
    var color := "#" + digits;
    assert color[0] == '#' && color[1..] == digits;
    assert !IsRgb(color) && !IsHsl(color) && !IsOklch(color) by {
      assert color[..1] == "#";
    }
  }

  /** The functional notations are accepted whatever follows the opening parenthesis. */
  lemma FunctionalNotationAccepted(rest: string)
    ensures IsValidColor("rgb(" + rest) && IsValidColor("rgba(" + rest)
    ensures IsValidColor("hsl(" + rest) && IsValidColor("hsla(" + rest)
    ensures IsValidColor("oklch(" + rest)
  {
    assert ("rgb(" + rest)[..4] == "rgb(";
    assert ("rgba(" + rest)[..5] == "rgba(";
    assert ("hsl(" + rest)[..4] == "hsl(";
    assert ("hsla(" + rest)[..5] == "hsla(";
    assert ("oklch(" + rest)[..6] == "oklch(";
  }

  /**
   * Every other string is rejected: the empty string and any string whose
   * first character is not `#`, `r`, `h` or `o` (so also `RGB(…)`: the
   * function names are matched case-sensitively).
   */
  lemma OtherStartRejected(color: string)
    requires color == [] || (color[0] != '#' && color[0] != 'r' && color[0] != 'h' && color[0] != 'o')
    ensures !IsValidColor(color)
  {
    if color != [] {
      assert !StartsWith(color, "rgb(") by { assert "rgb("[0] == 'r'; }
      assert !StartsWith(color, "rgba(") by { assert "rgba("[0] == 'r'; }
      assert !StartsWith(color, "hsl(") by { assert "hsl("[0] == 'h'; }
      assert !StartsWith(color, "hsla(") by { assert "hsla("[0] == 'h'; }
      assert !StartsWith(color, "oklch(") by { assert "oklch("[0] == 'o'; }
    }
  }

  /** Lower-casing a hex colour keeps it a hex colour and lower-casing anything else does not make one. */
  lemma HexCaseInsensitive(color: string)
    ensures IsHexColor(Lower(color)) <==> IsHexColor(color)
  {
    var l := Lower(color);
    if |color| >= 1 {
      assert l[0] == LowerChar(color[0]);
      assert LowerChar(color[0]) == '#' <==> color[0] == '#';
      forall i | 1 <= i < |color| ensures IsHexDigit(l[i]) <==> IsHexDigit(color[i]) {
        assert l[i] == LowerChar(color[i]);
      }
      assert AllHexDigits(l[1..]) <==> AllHexDigits(color[1..]) by {
        assert forall i :: 0 <= i < |color| - 1 ==> l[1..][i] == l[i + 1] && color[1..][i] == color[i + 1];
      }
    }
  }

  // ---------------------------------------------------------------------------
  // generateScss
  // ---------------------------------------------------------------------------

  /** `Object.entries` of a `PaletteColors` record: key and value, in insertion order. */
  type Entries = seq<(string, string)>

  datatype GeneralColors = GeneralColors(cardBorder: string, cardShadow: string)

  datatype ColorPalette = ColorPalette(plain: Entries, tint: Entries, general: GeneralColors)

  const DEFAULT_INDENT: string := "    "

  /** `${indent}${key}: ${value},` */
  function EntryLine(entry: (string, string), indent: string): string {
    indent + entry.0 + ": " + entry.1 + ","
  }

  function EntryLines(colors: Entries, indent: string): (r: seq<string>)
    ensures |r| == |colors|
  {
    seq(|colors|, i requires 0 <= i < |colors| => EntryLine(colors[i], indent))
  }

  /** `formatPaletteColors`: one line per entry, joined by newlines. */
  function FormatPaletteColors(colors: Entries, indent: string): string {
    Join(EntryLines(colors, indent), "\n")
  }

  /**
   * `formatColors`: the template literal, whose lines are these twelve pieces
   * separated by newlines (each palette piece holding its own lines).
   */
  function FormatColors(pal: ColorPalette): string {
    Join([
      "$colors: (",
      "  plain: (",
      FormatPaletteColors(pal.plain, DEFAULT_INDENT),
      "  ),",
      "  tint: (",
      FormatPaletteColors(pal.tint, DEFAULT_INDENT),
      "  ),",
      "  general: (",
      "    card-border: " + pal.general.cardBorder + ",",
      "    card-shadow: '" + pal.general.cardShadow + "',",
      "  ),",
      ");"], "\n")
  }

  /** `generateScss(palette, includeDark?)`. */
  function GenerateScss(palette: ColorPalette, includeDark: Option<ColorPalette>): (r: string)
    ensures FormatColors(palette) <= r
    ensures r == FormatColors(palette) <==> includeDark.None?
  {
    var scss := FormatColors(palette);
    if includeDark.Some? then
      scss + "\n\n" + ReplaceFirst(FormatColors(includeDark.value), "$colors", "$colors-dark")
    else scss
  }

  /** The lines a palette section prints: one per entry, or one empty line when there is none. */
  function PaletteLines(colors: Entries): (r: seq<string>)
    ensures |r| >= 1
  {
    if colors == [] then [""] else EntryLines(colors, DEFAULT_INDENT)
  }

  /** The lines of one `$colors` block, line by line. */
  function BlockLines(pal: ColorPalette): (r: seq<string>)
    ensures |r| >= 1 && r[0] == "$colors: ("
  {
    ["$colors: (", "  plain: ("] + PaletteLines(pal.plain)
    + ["  ),", "  tint: ("] + PaletteLines(pal.tint)
    + ["  ),", "  general: (",
       "    card-border: " + pal.general.cardBorder + ",",
       "    card-shadow: '" + pal.general.cardShadow + "',",
       "  ),", ");"]
  }

  /** No key, value, border or shadow holds a line break. */
  predicate NoLineBreaks(pal: ColorPalette) {
    && (forall i :: 0 <= i < |pal.plain| ==> '\n' !in pal.plain[i].0 && '\n' !in pal.plain[i].1)
    && (forall i :: 0 <= i < |pal.tint| ==> '\n' !in pal.tint[i].0 && '\n' !in pal.tint[i].1)
    && '\n' !in pal.general.cardBorder && '\n' !in pal.general.cardShadow
  }

  /** Splicing the join of `m` into a list and joining is joining the flattened list. */
  lemma JoinSplice(x: seq<string>, m: seq<string>, y: seq<string>, sep: string)
    requires x != [] && m != [] && y != []
    ensures Join(x + [Join(m, sep)] + y, sep) == Join(x + m + y, sep)
  {
    JoinAppend(x, [Join(m, sep)] + y, sep);
    assert x + [Join(m, sep)] + y == x + ([Join(m, sep)] + y);
    assert ([Join(m, sep)] + y)[0] == Join(m, sep) && ([Join(m, sep)] + y)[1..] == y;
    JoinAppend(x, m + y, sep);
    assert x + m + y == x + (m + y);
    JoinAppend(m, y, sep);
  }

  /** A palette section prints exactly its lines. */
  lemma FormatPaletteColorsJoin(colors: Entries)
    ensures FormatPaletteColors(colors, DEFAULT_INDENT) == Join(PaletteLines(colors), "\n")
  {
    if colors == [] {
      assert EntryLines(colors, DEFAULT_INDENT) == [];
    }
  }

  /** The block is its lines joined by newlines. */
  lemma FormatColorsJoin(pal: ColorPalette)
    ensures FormatColors(pal) == Join(BlockLines(pal), "\n")
  {
    var p := PaletteLines(pal.plain);
    var t := PaletteLines(pal.tint);
    var tail := ["  ),", "  general: (",
       "    card-border: " + pal.general.cardBorder + ",",
       "    card-shadow: '" + pal.general.cardShadow + "',",
       "  ),", ");"];
    FormatPaletteColorsJoin(pal.plain);
    FormatPaletteColorsJoin(pal.tint);
    var x := ["$colors: (", "  plain: ("];
    var y := ["  ),", "  tint: (", Join(t, "\n")] + tail;
    JoinSplice(x, p, y, "\n");
    var x2 := x + p + ["  ),", "  tint: ("];
    JoinSplice(x2, t, tail, "\n");
    var head := ["$colors: (", "  plain: (", Join(p, "\n"), "  ),", "  tint: (", Join(t, "\n")];
    assert FormatColors(pal) == Join(head + tail, "\n") by {
      assert head + tail == ["$colors: (", "  plain: (", Join(p, "\n"), "  ),", "  tint: (", Join(t, "\n"),
        "  ),", "  general: (",
        "    card-border: " + pal.general.cardBorder + ",",
        "    card-shadow: '" + pal.general.cardShadow + "',",
        "  ),", ");"];
    }
    calc {
      FormatColors(pal);
      Join(head + tail, "\n");
      { assert head + tail == x + [Join(p, "\n")] + y; }
      Join(x + [Join(p, "\n")] + y, "\n");
      Join(x + p + y, "\n");
      { assert x + p + y == x2 + [Join(t, "\n")] + tail; }
      Join(x2 + [Join(t, "\n")] + tail, "\n");
      Join(x2 + t + tail, "\n");
      { assert x2 + t + tail == BlockLines(pal); }
      Join(BlockLines(pal), "\n");
    }
  }

  /** No line of a block holds a line break. */
  lemma BlockLinesSingle(pal: ColorPalette)
    requires NoLineBreaks(pal)
    ensures forall k :: 0 <= k < |BlockLines(pal)| ==> '\n' !in BlockLines(pal)[k]
  {
    EntryLinesSingle(pal.plain);
    EntryLinesSingle(pal.tint);
    var b := pal.general.cardBorder;
    var s := pal.general.cardShadow;
    assert "    card-border: " + b + "," == "    card-border: " + (b + ",");
    assert "    card-shadow: '" + s + "'," == "    card-shadow: '" + (s + "',");
  }

  lemma EntryLinesSingle(colors: Entries)
    requires forall i :: 0 <= i < |colors| ==> '\n' !in colors[i].0 && '\n' !in colors[i].1
    ensures forall k :: 0 <= k < |PaletteLines(colors)| ==> '\n' !in PaletteLines(colors)[k]
  {
    forall k | 0 <= k < |colors| ensures '\n' !in EntryLine(colors[k], DEFAULT_INDENT) {
      var e := colors[k];
      assert EntryLine(e, DEFAULT_INDENT) == DEFAULT_INDENT + (e.0 + (": " + (e.1 + ",")));
    }
  }

  /**
   * Without a dark palette the output is exactly one block: the header, the
   * plain entries as `    key: value,` in entry order, the tint entries
   * likewise, and the general colours with only the card shadow quoted.
   */
  lemma ScssLines(palette: ColorPalette)
    requires NoLineBreaks(palette)
    ensures Split(GenerateScss(palette, None), '\n') == BlockLines(palette)
  {
    FormatColorsJoin(palette);
    BlockLinesSingle(palette);
    SplitJoin(BlockLines(palette), '\n');
  }

  /**
   * With a dark palette the light block comes first, then one empty line, then
   * the dark block whose first line, and only that line, is renamed to
   * `$colors-dark`.
   */
  lemma ScssDarkLines(palette: ColorPalette, dark: ColorPalette)
    requires NoLineBreaks(palette) && NoLineBreaks(dark)
    ensures Split(GenerateScss(palette, Some(dark)), '\n') ==
      BlockLines(palette) + [""] + ["$colors-dark: ("] + BlockLines(dark)[1..]
  {
    var all := BlockLines(palette) + [""] + ["$colors-dark: ("] + BlockLines(dark)[1..];
    ScssDarkJoin(palette, dark);
    BlockLinesSingle(palette);
    BlockLinesSingle(dark);
    SingleLines(BlockLines(palette), BlockLines(dark));
    SplitJoin(all, '\n');
  }

  /** The two blocks, joined with the empty line between them. */
  lemma ScssDarkJoin(palette: ColorPalette, dark: ColorPalette)
    ensures GenerateScss(palette, Some(dark)) ==
      Join(BlockLines(palette) + [""] + ["$colors-dark: ("] + BlockLines(dark)[1..], "\n")
  {
    var light := BlockLines(palette);
    var renamed := ["$colors-dark: ("] + BlockLines(dark)[1..];
    DarkBlockRenamed(dark);
    FormatColorsJoin(palette);
    JoinAppend(light, [""], "\n");
    JoinAppend(light + [""], renamed, "\n");
    assert light + [""] + renamed == light + [""] + ["$colors-dark: ("] + BlockLines(dark)[1..];
  }

  lemma SingleLines(light: seq<string>, dark: seq<string>)
    requires dark != []
    requires forall k :: 0 <= k < |light| ==> '\n' !in light[k]
    requires forall k :: 0 <= k < |dark| ==> '\n' !in dark[k]
    ensures var all := light + [""] + ["$colors-dark: ("] + dark[1..];
      forall k :: 0 <= k < |all| ==> '\n' !in all[k]
  {
    var all := light + [""] + ["$colors-dark: ("] + dark[1..];
    forall k | 0 <= k < |all| ensures '\n' !in all[k] {
      if k < |light| {
        assert all[k] == light[k];
      } else if k > |light| + 1 {
        assert all[k] == dark[k - |light| - 1];
      }
    }
  }

  /** The rename hits the block's first line. */
  lemma DarkBlockRenamed(dark: ColorPalette)
    ensures ReplaceFirst(FormatColors(dark), "$colors", "$colors-dark") ==
      Join(["$colors-dark: ("] + BlockLines(dark)[1..], "\n")
  {
    var lines := BlockLines(dark);
    var rest := lines[1..];
    FormatColorsJoin(dark);
    assert lines == ["$colors: ("] + rest;
    JoinAppend(["$colors: ("], rest, "\n");
    JoinAppend(["$colors-dark: ("], rest, "\n");
    HeaderRenamed("\n" + Join(rest, "\n"));
  }

  /** `replace('$colors', '$colors-dark')` on text that starts with the header renames the header. */
  lemma HeaderRenamed(rest: string)
    ensures ReplaceFirst("$colors: (" + rest, "$colors", "$colors-dark") == "$colors-dark: (" + rest
  {
    var s := "$colors: (" + rest;
    assert s[..7] == "$colors";
    assert s[7..] == ": (" + rest;
  }
}
