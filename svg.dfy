/**
 * The icon preparation script's text helpers: `appendAttributesToTags`
 * (a global, case-insensitive replace that inserts attributes before the
 * `>` of every opening tag), `extractViewBoxValues` (the first `viewBox`
 * attribute with four values) and the size decision `processSVG` takes
 * between them.
 *
 * The regular expressions are modelled as the scans they perform: a
 * position where the pattern matches, the leftmost such position, and what
 * the greedy or lazy parts of the pattern capture there. JavaScript's `\s`
 * is `Strings.IsWhitespace`; the `i` flag folds ASCII letters only, which
 * is what it does for the ASCII letters of these patterns.
 */
module SvgHelpers {
  import opened Wrappers
  import opened Strings

  /** Equal up to ASCII case. */
  predicate SameLetters(a: string, b: string) {
    |a| == |b| && forall i :: 0 <= i < |a| ==> LowerChar(a[i]) == LowerChar(b[i])
  }

  /** The first index at or after `from` holding `c`, or -1. */
  function FindChar(s: string, c: char, from: nat): (r: int)
    ensures r == -1 || (from <= r < |s| && s[r] == c)
    ensures forall j :: from <= j < |s| && (r == -1 || j < r) ==> s[j] != c
    decreases |s| - from
  {
    if from >= |s| then -1
    else if s[from] == c then from
    else FindChar(s, c, from + 1)
  }

  // ---------------------------------------------------------------------
  // appendAttributesToTags
  // ---------------------------------------------------------------------

  /**
   * Where `(<tag\s*[^>]*>)` matches at the start of `html`: the index of the
   * `>` that ends the match, or -1. `\s*[^>]*` is any run of characters
   * other than `>`, so the match ends at the first `>` after the name.
   */
  function OpeningTagEnd(html: string, tagName: string): int {
    if |html| < 1 + |tagName| || html[0] != '<' || !SameLetters(html[1..1 + |tagName|], tagName) then -1
    else FindChar(html, '>', 1 + |tagName|)
  }

  /**
   * `appendAttributesToTags(html, tagName, attrs)`: scanning left to right,
   * each opening tag `<tagName…>` becomes `<tagName… attrs>` and the scan
   * resumes after its `>`; every other character is kept.
   */
  function AppendAttributesToTags(html: string, tagName: string, attrs: string): (r: string)
    ensures |r| >= |html|
    ensures '<' !in html ==> r == html
    decreases |html|
  {
    if html == [] then []
    else
      var j := OpeningTagEnd(html, tagName);
      if j < 0 then [html[0]] + AppendAttributesToTags(html[1..], tagName, attrs)
      else html[..j] + " " + attrs + ">" + AppendAttributesToTags(html[j + 1..], tagName, attrs)
  }

  /** Text with no `<` is copied unchanged, and the scan goes on after it. */
  lemma {:induction false} TextKept(text: string, rest: string, tagName: string, attrs: string)
    requires '<' !in text
    ensures AppendAttributesToTags(text + rest, tagName, attrs) == text + AppendAttributesToTags(rest, tagName, attrs)
    decreases |text|
  {
    if text != [] {
      var s := text + rest;
      assert s[0] == text[0] && s[1..] == text[1..] + rest;
      assert OpeningTagEnd(s, tagName) == -1;
      TextKept(text[1..], rest, tagName, attrs);
      assert text == [text[0]] + text[1..];
    } else {
      assert text + rest == rest;
    }
  }

  /**
   * An opening tag whose name is `tagName` in any letter case gains
   * ` attrs` just before its `>`, and the scan goes on after it.
   */
  lemma TagExtended(name: string, body: string, rest: string, tagName: string, attrs: string)
    requires SameLetters(name, tagName) && '>' !in body
    ensures AppendAttributesToTags("<" + name + body + ">" + rest, tagName, attrs)
         == "<" + name + body + " " + attrs + ">" + AppendAttributesToTags(rest, tagName, attrs)
  {
    var html := "<" + name + body + ">" + rest;
    var j := 1 + |name| + |body|;
    assert html[1..1 + |tagName|] == name;
    assert html[j] == '>';
    forall k | 1 + |tagName| <= k < j ensures html[k] != '>' {
      assert html[k] == body[k - 1 - |name|];
    }
    assert OpeningTagEnd(html, tagName) == j;
    assert html[..j] == "<" + name + body;
    assert html[j + 1..] == rest;
  }

  /** Without any `>` there is no opening tag, and nothing changes. */
  lemma {:induction false} NoClosingUnchanged(html: string, tagName: string, attrs: string)
    requires '>' !in html
    ensures AppendAttributesToTags(html, tagName, attrs) == html
    decreases |html|
  {
    if html != [] {
      assert OpeningTagEnd(html, tagName) == -1;
      NoClosingUnchanged(html[1..], tagName, attrs);
      assert html == [html[0]] + html[1..];
    }
  }

  // ---------------------------------------------------------------------
  // extractViewBoxValues
  // ---------------------------------------------------------------------

  /** `{ minX, minY, width, height }`, the four captured values. */
  datatype ViewBox = ViewBox(minX: string, minY: string, width: string, height: string)

  predicate IsQuote(c: char) {
    c == '"' || c == '\''
  }

  /** A character of `[^"'\s]`. */
  predicate IsValueChar(c: char) {
    !IsQuote(c) && !IsWhitespace(c)
  }

  /** A value the pattern can capture: `[^"'\s]+`. */
  predicate IsValue(v: string) {
    v != [] && forall i :: 0 <= i < |v| ==> IsValueChar(v[i])
  }

  /** The longest prefix of value characters (what a greedy `[^"'\s]+` takes). */
  function TakeValue(s: string): (r: string)
    ensures |r| <= |s| && r == s[..|r|]
    ensures |r| < |s| ==> !IsValueChar(s[|r|])
  {
    if s == [] || !IsValueChar(s[0]) then [] else [s[0]] + TakeValue(s[1..])
  }

  /**
   * `([^"'\s]+)` repeated `n` times with `\s+` between and `\s*["']` after:
   * the captured values, or `None` where the pattern fails.
   */
  function ParseValues(s: string, n: nat): (r: Option<seq<string>>)
    requires n >= 1
    ensures r.Some? ==> |r.value| == n
    decreases n
  {
    var v := TakeValue(s);
    if v == [] then None
    else
      var rest := s[|v|..];
      if n == 1 then
        var tail := TrimStart(rest);
        if tail != [] && IsQuote(tail[0]) then Some([v]) else None
      else if rest == [] || !IsWhitespace(rest[0]) then None
      else
        match ParseValues(TrimStart(rest), n - 1)
        case None => None
        case Some(vs) => Some([v] + vs)
  }

  /**
   * Whether `viewBox\s*=\s*["']\s*` followed by the four values matches at
   * the start of `s`, and what it captures. Each part of the pattern can
   * match in one way only, so this is the match at that position.
   */
  function ViewBoxAt(s: string): Option<ViewBox> {
    if |s| < 7 || !SameLetters(s[..7], "viewBox") then None
    else
      var a := TrimStart(s[7..]);
      if a == [] || a[0] != '=' then None
      else
        var b := TrimStart(a[1..]);
        if b == [] || !IsQuote(b[0]) then None
        else
          match ParseValues(TrimStart(b[1..]), 4)
          case None => None
          case Some(vs) => Some(ViewBox(vs[0], vs[1], vs[2], vs[3]))
  }

  /** `extractViewBoxValues(svg)`: the match at the leftmost position where there is one, or `null`. */
  function ExtractViewBoxValues(svg: string): (r: Option<ViewBox>)
    ensures r.Some? ==> IsValue(r.value.minX) && IsValue(r.value.minY) && IsValue(r.value.width) && IsValue(r.value.height)
    decreases |svg|
  {
    if svg == [] then None
    else
      var here := ViewBoxAt(svg);
      if here.Some? then ViewBoxAtValues(svg); here else ExtractViewBoxValues(svg[1..])
  }

  /** The four values a match captures are each a non-empty run without quotes or whitespace. */
  lemma ViewBoxAtValues(s: string)
    requires ViewBoxAt(s).Some?
    ensures var v := ViewBoxAt(s).value;
      IsValue(v.minX) && IsValue(v.minY) && IsValue(v.width) && IsValue(v.height)
  {
    var a := TrimStart(s[7..]);
    var b := TrimStart(a[1..]);
    ParsedValues(TrimStart(b[1..]), 4);
  }

  /** The result is `null` exactly when the pattern matches nowhere. */
  lemma {:induction false} ExtractNoneIff(svg: string)
    ensures ExtractViewBoxValues(svg).None? <==> forall i :: 0 <= i < |svg| ==> ViewBoxAt(svg[i..]).None?
    decreases |svg|
  {
    if svg != [] {
      ExtractNoneIff(svg[1..]);
      forall i | 1 <= i < |svg| ensures svg[i..] == svg[1..][i - 1..] { }
      assert svg[0..] == svg;
    }
  }

  /** A result is the match at the leftmost position where the pattern matches. */
  lemma {:induction false} ExtractLeftmost(svg: string) returns (i: nat)
    requires ExtractViewBoxValues(svg).Some?
    ensures i < |svg| && ViewBoxAt(svg[i..]) == ExtractViewBoxValues(svg)
    ensures forall j :: 0 <= j < i ==> ViewBoxAt(svg[j..]).None?
    decreases |svg|
  {
    if ViewBoxAt(svg).Some? {
      assert svg[0..] == svg;
      i := 0;
    } else {
      var k := ExtractLeftmost(svg[1..]);
      i := k + 1;
      assert svg[i..] == svg[1..][k..];
      forall j | 0 <= j < i ensures ViewBoxAt(svg[j..]).None? {
        if j == 0 {
          assert svg[0..] == svg;
        } else {
          assert svg[j..] == svg[1..][j - 1..];
        }
      }
    }
  }

  /** Every value the parser captures is a run of `[^"'\s]`. */
  lemma {:induction false} ParsedValues(s: string, n: nat)
    requires n >= 1 && ParseValues(s, n).Some?
    ensures forall k :: 0 <= k < n ==> IsValue(ParseValues(s, n).value[k])
    decreases n
  {
    var v := TakeValue(s);
    TakeValueIsValue(s);
    if n > 1 {
      ParsedValues(TrimStart(s[|v|..]), n - 1);
    }
  }

  lemma {:induction false} TakeValueIsValue(s: string)
    ensures forall i :: 0 <= i < |TakeValue(s)| ==> IsValueChar(TakeValue(s)[i])
    decreases |s|
  {
    if s != [] && IsValueChar(s[0]) {
      TakeValueIsValue(s[1..]);
    }
  }

  /** The four values separated by single spaces. */
  function ViewBoxValues(v: ViewBox): string {
    v.minX + " " + v.minY + " " + v.width + " " + v.height
  }

  /** `viewBox="minX minY width height"`, as an attribute is written. */
  function RenderViewBox(v: ViewBox): string {
    "viewBox" + ("=\"" + (ViewBoxValues(v) + "\""))
  }

  lemma StringAssoc(a: string, b: string, c: string)
    ensures a + b + c == a + (b + c)
  {
  }

  lemma SplitAfter(a: string, b: string)
    ensures (a + b)[..|a|] == a && (a + b)[|a|..] == b
  {
  }

  lemma {:induction false} TakeValueOf(v: string, rest: string)
    requires IsValue(v) && (rest == [] || !IsValueChar(rest[0]))
    ensures TakeValue(v + rest) == v
    decreases |v|
  {
    var s := v + rest;
    assert s[0] == v[0];
    if |v| > 1 {
      assert s[1..] == v[1..] + rest;
      TakeValueOf(v[1..], rest);
    } else {
      assert s[1..] == rest;
    }
  }

  /** One value followed by a space and the values after it. */
  lemma ParseValuesCons(v: string, rest: string, n: nat, vs: seq<string>)
    requires n >= 2 && IsValue(v) && rest != [] && !IsWhitespace(rest[0])
    requires ParseValues(rest, n - 1) == Some(vs)
    ensures ParseValues(v + " " + rest, n) == Some([v] + vs)
  {
    var s := v + " " + rest;
    assert s == v + (" " + rest);
    TakeValueOf(v, " " + rest);
    assert s[|v|..] == " " + rest;
    assert (" " + rest)[1..] == rest;
    assert TrimStart(" " + rest) == rest;
  }

  /** The last value followed by the closing quote. */
  lemma ParseValuesLast(v: string, rest: string)
    requires IsValue(v)
    ensures ParseValues(v + "\"" + rest, 1) == Some([v])
  {
    var s := v + "\"" + rest;
    assert s == v + ("\"" + rest);
    TakeValueOf(v, "\"" + rest);
    assert s[|v|..] == "\"" + rest;
  }

  /** The written values, regrouped value by value from the right. */
  lemma RegroupValues(v: ViewBox, tail: string)
    ensures ViewBoxValues(v) + "\"" + tail
         == v.minX + " " + (v.minY + " " + (v.width + " " + (v.height + "\"" + tail)))
  {
    var last := v.height + "\"" + tail;
    var third := v.width + " " + last;
    var q, t, sp := "\"", tail, " ";
    var u1 := v.minX + sp + v.minY;
    var v2 := u1 + sp + v.width;
    StringAssoc(ViewBoxValues(v), q, t);
    StringAssoc(v2 + sp, v.height, q + t);
    StringAssoc(v.height, q, t);
    StringAssoc(v2, sp, last);
    StringAssoc(u1 + sp, v.width, sp + last);
    StringAssoc(v.width, sp, last);
    StringAssoc(u1, sp, third);
    StringAssoc(v.minX + sp, v.minY, sp + third);
    StringAssoc(v.minY, sp, third);
  }

  /** The last two values, then the third, then all four, each parsed in turn. */
  lemma ParseLastTwo(v: ViewBox, tail: string)
    requires IsValue(v.width) && IsValue(v.height)
    ensures ParseValues(v.width + " " + (v.height + "\"" + tail), 2) == Some([v.width, v.height])
  {
    var last := v.height + "\"" + tail;
    ParseValuesLast(v.height, tail);
    assert last[0] == v.height[0];
    ParseValuesCons(v.width, last, 2, [v.height]);
    assert [v.width] + [v.height] == [v.width, v.height];
  }

  lemma ParseLastThree(v: ViewBox, tail: string)
    requires IsValue(v.minY) && IsValue(v.width) && IsValue(v.height)
    ensures ParseValues(v.minY + " " + (v.width + " " + (v.height + "\"" + tail)), 3)
         == Some([v.minY, v.width, v.height])
  {
    var third := v.width + " " + (v.height + "\"" + tail);
    ParseLastTwo(v, tail);
    assert third[0] == v.width[0];
    ParseValuesCons(v.minY, third, 3, [v.width, v.height]);
    assert [v.minY] + [v.width, v.height] == [v.minY, v.width, v.height];
  }

  /** The values of a written `viewBox`, parsed in order. */
  lemma ParseRenderedValues(v: ViewBox, tail: string)
    requires IsValue(v.minX) && IsValue(v.minY) && IsValue(v.width) && IsValue(v.height)
    ensures ParseValues(ViewBoxValues(v) + "\"" + tail, 4)
         == Some([v.minX, v.minY, v.width, v.height])
  {
    var second := v.minY + " " + (v.width + " " + (v.height + "\"" + tail));
    ParseLastThree(v, tail);
    assert second[0] == v.minY[0];
    ParseValuesCons(v.minX, second, 4, [v.minY, v.width, v.height]);
    assert [v.minX] + [v.minY, v.width, v.height] == [v.minX, v.minY, v.width, v.height];
    RegroupValues(v, tail);
  }

  /** A written `viewBox` attribute is read back with the same four values, whatever follows it. */
  lemma ViewBoxRoundTrip(v: ViewBox, tail: string)
    requires IsValue(v.minX) && IsValue(v.minY) && IsValue(v.width) && IsValue(v.height)
    ensures ExtractViewBoxValues(RenderViewBox(v) + tail) == Some(v)
  {
    var values := ViewBoxValues(v) + "\"" + tail;
    ParseRenderedValues(v, tail);
    var s := RenderViewBox(v) + tail;
    var a := "=\"" + values;
    StringAssoc("viewBox", "=\"" + (ViewBoxValues(v) + "\""), tail);
    StringAssoc("=\"", ViewBoxValues(v) + "\"", tail);
    assert s == "viewBox" + a;
    SplitAfter("viewBox", a);
    assert TrimStart(a) == a;
    var b := "\"" + values;
    assert a[1..] == b;
    assert TrimStart(b) == b;
    assert values[0] == v.minX[0];
    SplitAfter("\"", values);
    assert TrimStart(values) == values;
    assert ViewBoxAt(s) == Some(v);
  }

  /** Text without the letter `v` in either case cannot start a match, so it is skipped. */
  lemma {:induction false} ExtractSkipsText(text: string, rest: string)
    requires 'v' !in text && 'V' !in text
    ensures ExtractViewBoxValues(text + rest) == ExtractViewBoxValues(rest)
    decreases |text|
  {
    if text != [] {
      var s := text + rest;
      assert s[0] == text[0];
      assert ViewBoxAt(s).None? by {
        if |s| >= 7 && SameLetters(s[..7], "viewBox") {
          assert false;
        }
      }
      assert s[1..] == text[1..] + rest;
      ExtractSkipsText(text[1..], rest);
    } else {
      assert text + rest == rest;
    }
  }

  // ---------------------------------------------------------------------
  // The size decision in processSVG
  // ---------------------------------------------------------------------

  /** The last index holding `c`, or -1. */
  function LastIndexOf(s: string, c: char): (r: int)
    ensures r == -1 || (0 <= r < |s| && s[r] == c)
    ensures forall j :: r < j < |s| ==> s[j] != c
  {
    if s == [] then -1
    else if s[|s| - 1] == c then |s| - 1
    else LastIndexOf(s[..|s| - 1], c)
  }

  /**
   * Where `name="` starts at `i` and a `"` follows somewhere after it. With
   * `wholeName`, the name must also start the attribute: it is at the start
   * of the text or follows whitespace.
   */
  predicate AttributeAt(s: string, name: string, i: int, wholeName: bool) {
    && OccursAt(s, name + "=\"", i)
    && (!wholeName || i == 0 || IsWhitespace(s[i - 1]))
    && FindChar(s, '"', i + |name| + 2) >= 0
  }

  /** The leftmost position at or after `from` where the attribute matches, or -1. */
  function FirstAttribute(s: string, name: string, from: nat, wholeName: bool): (r: int)
    ensures r == -1 || (from <= r < |s| && AttributeAt(s, name, r, wholeName))
    ensures forall j :: from <= j < |s| && (r == -1 || j < r) ==> !AttributeAt(s, name, j, wholeName)
    decreases |s| - from
  {
    if from >= |s| then -1
    else if AttributeAt(s, name, from, wholeName) then from
    else FirstAttribute(s, name, from + 1, wholeName)
  }

  /**
   * `content.match(/name="[\s\S]*"/g)` as written: a `name="` with a later
   * `"` anywhere, also at the end of a longer name such as `stroke-width`.
   */
  predicate HasAttributeAsWritten(s: string, name: string) {
    FirstAttribute(s, name, 0, false) >= 0
  }

  /** An attribute called `name` itself, with a value that is closed by a later `"`. */
  predicate HasAttribute(s: string, name: string) {
    FirstAttribute(s, name, 0, true) >= 0
  }

  /** As written, a `stroke-width` counts as a `width`. */
  lemma StrokeWidthCountsAsWidth(v: string)
    ensures HasAttributeAsWritten("stroke-width=\"" + v + "\"", "width")
  {
    var s := "stroke-width=\"" + v + "\"";
    assert s[7..14] == "width=\"";
    assert s[|s| - 1] == '"';
    assert AttributeAt(s, "width", 7, false);
  }

  /** A `stroke-width` is not a `width` attribute. */
  lemma StrokeWidthIsNotWidth(v: string)
    requires '"' !in v && '=' !in v
    ensures !HasAttribute("stroke-width=\"" + v + "\"", "width")
  {
    var p := "stroke-width=\"";
    var s := p + v + "\"";
    assert |p| == 14 && p[6] == '-';
    assert forall k :: 0 <= k < 12 ==> p[k] != '=';
    // The only `=` of the text is the one after `stroke-width`.
    forall k | 0 <= k < |s| && k != 12 ensures s[k] != '=' {
      if k < 14 {
        assert s[k] == p[k];
      } else if k < 14 + |v| {
        assert s[k] == v[k - 14];
      } else {
        assert s[k] == '"';
      }
    }
    forall j | 0 <= j < |s| ensures !AttributeAt(s, "width", j, true) {
      if OccursAt(s, "width=\"", j) {
        assert s[j..j + 7][5] == '=';
        assert s[j + 5] == '=';
        assert j == 7 && s[6] == p[6];
      }
    }
  }


  /**
   * `content.match(/name="([\s\S]*)"/)[1]` as written: the greedy group runs
   * from the leftmost `name="` to the LAST `"` of the whole text; `null`
   * (no match) is `None`.
   */
  function GreedyAttributeValue(s: string, name: string): (r: Option<string>)
    ensures r.Some? <==> HasAttributeAsWritten(s, name)
    ensures r.Some? ==>
      var e := FirstAttribute(s, name, 0, false) + |name| + 2 + |r.value|;
      e < |s| && s[e] == '"' && '"' !in s[e + 1..]
  {
    var i := FirstAttribute(s, name, 0, false);
    if i < 0 then None
    else Some(s[i + |name| + 2..LastIndexOf(s, '"')])
  }

  /**
   * The value of the first attribute called `name`, up to the next `"`: what
   * the group is meant to capture.
   */
  function AttributeValue(s: string, name: string): (r: Option<string>)
    ensures r.Some? <==> HasAttribute(s, name)
    ensures r.Some? ==>
      var e := FirstAttribute(s, name, 0, true) + |name| + 2 + |r.value|;
      e < |s| && s[e] == '"' && '"' !in r.value
  {
    var i := FirstAttribute(s, name, 0, true);
    if i < 0 then None
    else Some(s[i + |name| + 2..FindChar(s, '"', i + |name| + 2)])
  }

  /** `width="24" height="20"` as the script writes or finds it. */
  function SizeAttributes(width: string, height: string): string {
    "width=\"" + width + "\" height=\"" + height + "\""
  }

  /** As written, the width read from `width="w" height="h"` runs on to the end of the height. */
  lemma GreedyWidthSpansHeight(w: string, h: string)
    requires '"' !in w && '"' !in h
    ensures GreedyAttributeValue(SizeAttributes(w, h), "width") == Some(w + "\" height=\"" + h)
  {
    var s := SizeAttributes(w, h);
    assert s[..7] == "width=\"";
    assert s[7 + |w|] == '"';
    assert AttributeAt(s, "width", 0, false);
    assert LastIndexOf(s, '"') == |s| - 1;
    assert s[7..|s| - 1] == w + "\" height=\"" + h;
  }

  /** The attribute's own value is read back, whatever follows it. */
  lemma AttributeValueOf(name: string, v: string, rest: string)
    requires '"' !in v
    ensures AttributeValue(name + "=\"" + v + "\"" + rest, name) == Some(v)
  {
    var s := name + "=\"" + v + "\"" + rest;
    var k := |name| + 2;
    assert s[..k] == name + "=\"";
    assert s[k + |v|] == '"';
    forall j | k <= j < k + |v| ensures s[j] != '"' {
      assert s[j] == v[j - k];
    }
    assert FindChar(s, '"', k) == k + |v|;
    assert AttributeAt(s, name, 0, true);
    assert s[k..k + |v|] == v;
  }

  /** In particular the width read from `width="w" height="h"` is `w`. */
  lemma WidthOfSizeAttributes(w: string, h: string)
    requires '"' !in w
    ensures AttributeValue(SizeAttributes(w, h), "width") == Some(w)
  {
    AttributeValueOf("width", w, " height=\"" + h + "\"");
    assert SizeAttributes(w, h) == "width" + "=\"" + w + "\"" + (" height=\"" + h + "\"");
  }

  /** `viewBox="0 0 24 20"` as the script writes it from a width and a height. */
  function ViewBoxAttribute(width: string, height: string): string {
    "viewBox=\"0 0 " + width + " " + height + "\""
  }

  /** Which attributes `processSVG` adds to the `<svg>` tags. */
  datatype SizeFix = AddSize | AddViewBox | NoSizeFix

  /**
   * The size decision of `processSVG` as written: a `viewBox="…"` match
   * without a `width="…"` match asks for `width`/`height`; a `width` match
   * without a `viewBox` match asks for a `viewBox`; anything else is left
   * alone. The matches are substring matches, so the tail of `stroke-width`
   * counts as a width.
   */
  function SizeFixFor(content: string): (r: SizeFix)
    ensures r == AddSize <==> HasAttributeAsWritten(content, "viewBox") && !HasAttributeAsWritten(content, "width")
    ensures r == AddViewBox <==> HasAttributeAsWritten(content, "width") && !HasAttributeAsWritten(content, "viewBox")
  {
    var hasViewBox := HasAttributeAsWritten(content, "viewBox");
    var hasWidth := HasAttributeAsWritten(content, "width");
    if hasViewBox && !hasWidth then AddSize
    else if hasWidth && !hasViewBox then AddViewBox
    else NoSizeFix
  }

  /**
   * The size step of `processSVG` as written, with the greedy width and
   * height reads. Destructuring a `null` viewBox, or indexing a missing
   * `height` match, throws a `TypeError`, which the script catches, leaving
   * the file as it was.
   */
  function FixSize(content: string): (r: Result<string>)
    ensures SizeFixFor(content) == NoSizeFix ==> r == Ok(content)
    ensures SizeFixFor(content) == AddSize ==>
      (r.Err? <==> ExtractViewBoxValues(content).None?)
    ensures SizeFixFor(content) == AddViewBox ==>
      (r.Err? <==> GreedyAttributeValue(content, "height").None?)
  {
    match SizeFixFor(content)
    case NoSizeFix => Ok(content)
    case AddSize =>
      var box := ExtractViewBoxValues(content);
      if box.None? then Err(TypeError)
      else Ok(AppendAttributesToTags(content, "svg", SizeAttributes(box.value.width, box.value.height)))
    case AddViewBox =>
      var width := GreedyAttributeValue(content, "width");
      var height := GreedyAttributeValue(content, "height");
      if width.None? || height.None? then Err(TypeError)
      else Ok(AppendAttributesToTags(content, "svg", ViewBoxAttribute(width.value, height.value)))
  }

  /**
   * The size decision as intended: a whole `viewBox` attribute without a
   * whole `width` attribute asks for `width`/`height`, and the reverse asks
   * for a `viewBox`.
   */
  function IntendedSizeFix(content: string): (r: SizeFix)
    ensures r == AddSize <==> HasAttribute(content, "viewBox") && !HasAttribute(content, "width")
    ensures r == AddViewBox <==> HasAttribute(content, "width") && !HasAttribute(content, "viewBox")
  {
    var hasViewBox := HasAttribute(content, "viewBox");
    var hasWidth := HasAttribute(content, "width");
    if hasViewBox && !hasWidth then AddSize
    else if hasWidth && !hasViewBox then AddViewBox
    else NoSizeFix
  }

  /** The size step as intended: whole attribute names and each value up to its own closing quote. */
  function IntendedFixSize(content: string): (r: Result<string>)
    ensures IntendedSizeFix(content) == NoSizeFix ==> r == Ok(content)
    ensures IntendedSizeFix(content) == AddSize ==>
      (r.Err? <==> ExtractViewBoxValues(content).None?)
    ensures IntendedSizeFix(content) == AddViewBox ==>
      (r.Err? <==> AttributeValue(content, "height").None?)
  {
    match IntendedSizeFix(content)
    case NoSizeFix => Ok(content)
    case AddSize =>
      var box := ExtractViewBoxValues(content);
      if box.None? then Err(TypeError)
      else Ok(AppendAttributesToTags(content, "svg", SizeAttributes(box.value.width, box.value.height)))
    case AddViewBox =>
      var width := AttributeValue(content, "width");
      var height := AttributeValue(content, "height");
      if width.None? || height.None? then Err(TypeError)
      else Ok(AppendAttributesToTags(content, "svg", ViewBoxAttribute(width.value, height.value)))
  }

  /** A name matched at `j` is spelled out from `j`, and its `=` follows at `j + |name|`. */
  lemma MatchSpelled(s: string, name: string, j: int, wholeName: bool)
    ensures AttributeAt(s, name, j, wholeName) ==>
      && j + |name| < |s| && s[j + |name|] == '='
      && forall i :: 0 <= i < |name| ==> s[j + i] == name[i]
  {
    if AttributeAt(s, name, j, wholeName) {
      var m := s[j..j + |name| + 2];
      assert m == name + "=\"";
      assert m[|name|] == '=';
      forall i | 0 <= i < |name| ensures s[j + i] == name[i] {
        assert m[i] == name[i];
      }
    }
  }

  /** In `pre stroke-width="v" post` with no other `=`, the only `=` follows `stroke-width`. */
  lemma StrokeWidthEquals(pre: string, v: string, post: string, k: int)
    requires '=' !in pre && '=' !in v && '=' !in post
    requires 0 <= k < |pre + "stroke-width=\"" + v + "\"" + post| && k != |pre| + 12
    ensures (pre + "stroke-width=\"" + v + "\"" + post)[k] != '='
  {
    var p := "stroke-width=\"";
    var s := pre + p + v + "\"" + post;
    if k < |pre| {
      assert s[k] == pre[k];
    } else if k < |pre| + 14 {
      assert s[k] == p[k - |pre|];
    } else if k < |pre| + 14 + |v| {
      assert s[k] == v[k - |pre| - 14];
    } else if k == |pre| + 14 + |v| {
      assert s[k] == '"';
    } else {
      assert s[k] == post[k - |pre| - 15 - |v|];
    }
  }

  /**
   * In `pre stroke-width="v" post`, a name that does not end `stroke-width`
   * is matched nowhere.
   */
  lemma NoMatchBesideStrokeWidth(pre: string, v: string, post: string, name: string, wholeName: bool)
    requires '=' !in pre && '=' !in v && '=' !in post
    requires 0 < |name| <= 12 && name[0] != "stroke-width"[12 - |name|]
    ensures var s := pre + "stroke-width=\"" + v + "\"" + post;
      forall j :: 0 <= j < |s| ==> !AttributeAt(s, name, j, wholeName)
  {
    var p := "stroke-width=\"";
    var s := pre + p + v + "\"" + post;
    forall j | 0 <= j < |s| ensures !AttributeAt(s, name, j, wholeName) {
      MatchSpelled(s, name, j, wholeName);
      var k := j + |name|;
      if k < |s| && k != |pre| + 12 {
        StrokeWidthEquals(pre, v, post, k);
      } else if k == |pre| + 12 {
        assert s[j] == p[12 - |name|];
      }
    }
  }

  /**
   * As written, an icon whose only size-like attribute is a `stroke-width`
   * is taken to have a width without a viewBox; the height read then finds
   * nothing and the size step fails.
   */
  lemma StrokeWidthFailsAsWritten(pre: string, v: string, post: string)
    requires '=' !in pre && '=' !in v && '=' !in post && '"' !in v
    ensures var s := pre + "stroke-width=\"" + v + "\"" + post;
      SizeFixFor(s) == AddViewBox && FixSize(s) == Err(TypeError)
  {
    var p := "stroke-width=\"";
    var s := pre + p + v + "\"" + post;
    var w := |pre| + 7;
    assert s[w..w + 7] == p[7..14] == "width=\"";
    assert s[|pre| + 14 + |v|] == '"';
    assert FindChar(s, '"', w + 7) >= 0;
    assert AttributeAt(s, "width", w, false);
    NoMatchBesideStrokeWidth(pre, v, post, "viewBox", false);
    NoMatchBesideStrokeWidth(pre, v, post, "height", false);
    assert !HasAttributeAsWritten(s, "viewBox");
    assert GreedyAttributeValue(s, "height").None?;
  }

  /** As intended, the same icon has neither a width nor a viewBox and is left as it is. */
  lemma StrokeWidthLeftAlone(pre: string, v: string, post: string)
    requires '=' !in pre && '=' !in v && '=' !in post && '"' !in v
    ensures var s := pre + "stroke-width=\"" + v + "\"" + post;
      IntendedSizeFix(s) == NoSizeFix && IntendedFixSize(s) == Ok(s)
  {
    var p := "stroke-width=\"";
    var s := pre + p + v + "\"" + post;
    NoMatchBesideStrokeWidth(pre, v, post, "viewBox", true);
    forall j | 0 <= j < |s| ensures !AttributeAt(s, "width", j, true) {
      MatchSpelled(s, "width", j, true);
      if j + 5 < |s| && j + 5 != |pre| + 12 {
        StrokeWidthEquals(pre, v, post, j + 5);
      } else if j + 5 == |pre| + 12 {
        assert s[j - 1] == p[6] == '-';
      }
    }
  }

  /**
   * For an `<svg …>` tag with a `viewBox` and no `width`, the tag gains the
   * `width` and `height` of that viewBox before its `>`.
   */
  lemma SizeAddedToTag(name: string, body: string, rest: string, v: ViewBox)
    requires SameLetters(name, "svg") && '>' !in body
    requires IntendedSizeFix("<" + name + body + ">" + rest) == AddSize
    requires ExtractViewBoxValues("<" + name + body + ">" + rest) == Some(v)
    ensures IntendedFixSize("<" + name + body + ">" + rest)
         == Ok("<" + name + body + " " + SizeAttributes(v.width, v.height) + ">"
               + AppendAttributesToTags(rest, "svg", SizeAttributes(v.width, v.height)))
  {
    TagExtended(name, body, rest, "svg", SizeAttributes(v.width, v.height));
  }

  /** An attribute found in a text is still found when more text follows. */
  lemma AttributeKept(p: string, q: string, name: string, i: int, wholeName: bool)
    requires AttributeAt(p, name, i, wholeName)
    ensures AttributeAt(p + q, name, i, wholeName)
  {
    var s := p + q;
    var k := FindChar(p, '"', i + |name| + 2);
    assert s[i..i + |name| + 2] == p[i..i + |name| + 2];
    assert s[k] == '"';
    if i > 0 {
      assert s[i - 1] == p[i - 1];
    }
  }

  /** A text has an attribute wherever one matches. */
  lemma HasAttributeAt(s: string, name: string, i: int)
    requires AttributeAt(s, name, i, true)
    ensures HasAttribute(s, name)
  {
  }

  /** The `width` written into a tag is a whole `width` attribute. */
  lemma WidthWritten(pre: string, w: string, h: string, post: string)
    ensures HasAttribute(pre + " " + SizeAttributes(w, h) + post, "width")
  {
    var s := pre + " " + SizeAttributes(w, h) + post;
    var k := |pre| + 1;
    var attrs := SizeAttributes(w, h);
    assert attrs[..7] == "width=\"" && attrs[7 + |w|] == '"';
    assert s == pre + " " + attrs + post;
    assert s[k - 1] == ' ';
    assert s[k..k + 7] == attrs[..7];
    assert s[k + 7 + |w|] == '"';
    HasAttributeAt(s, "width", k);
  }

  /** A text with a whole `viewBox` attribute that gains a `width` and `height` needs no size fix. */
  lemma SettledAfterSize(pre: string, w: string, h: string, post: string)
    requires HasAttribute(pre, "viewBox")
    ensures IntendedSizeFix(pre + " " + SizeAttributes(w, h) + post) == NoSizeFix
  {
    var out := pre + " " + SizeAttributes(w, h) + post;
    WidthWritten(pre, w, h, post);
    var i := FirstAttribute(pre, "viewBox", 0, true);
    StringAssoc(pre, " " + SizeAttributes(w, h), post);
    StringAssoc(pre, " ", SizeAttributes(w, h));
    AttributeKept(pre, " " + SizeAttributes(w, h) + post, "viewBox", i, true);
    HasAttributeAt(out, "viewBox", i);
  }

  /**
   * Once `width`/`height` have been added to an `<svg>` tag that carries
   * the viewBox, the size step asks for nothing more: running the script
   * again leaves the size alone.
   */
  lemma SizeSettles(name: string, body: string, rest: string, v: ViewBox)
    requires SameLetters(name, "svg") && '>' !in body
    requires HasAttribute("<" + name + body, "viewBox")
    requires IntendedSizeFix("<" + name + body + ">" + rest) == AddSize
    requires ExtractViewBoxValues("<" + name + body + ">" + rest) == Some(v)
    ensures IntendedFixSize("<" + name + body + ">" + rest).Ok?
    ensures IntendedSizeFix(IntendedFixSize("<" + name + body + ">" + rest).value) == NoSizeFix
  {
    SizeAddedToTag(name, body, rest, v);
    var pre := "<" + name + body;
    var attrs := SizeAttributes(v.width, v.height);
    var tail := AppendAttributesToTags(rest, "svg", attrs);
    StringAssoc(pre + " " + attrs, ">", tail);
    SettledAfterSize(pre, v.width, v.height, ">" + tail);
  }

  /**
   * For an `<svg …>` tag with a `width` and no `viewBox`, the tag gains a
   * `viewBox` from the width and height before its `>`.
   */
  lemma ViewBoxAddedToTag(name: string, body: string, rest: string, w: string, h: string)
    requires SameLetters(name, "svg") && '>' !in body
    requires IntendedSizeFix("<" + name + body + ">" + rest) == AddViewBox
    requires AttributeValue("<" + name + body + ">" + rest, "width") == Some(w)
    requires AttributeValue("<" + name + body + ">" + rest, "height") == Some(h)
    ensures IntendedFixSize("<" + name + body + ">" + rest)
         == Ok("<" + name + body + " " + ViewBoxAttribute(w, h) + ">"
               + AppendAttributesToTags(rest, "svg", ViewBoxAttribute(w, h)))
  {
    TagExtended(name, body, rest, "svg", ViewBoxAttribute(w, h));
  }

  /** The `viewBox` written into a tag is a whole `viewBox` attribute. */
  lemma ViewBoxWritten(pre: string, w: string, h: string, post: string)
    ensures HasAttribute(pre + " " + ViewBoxAttribute(w, h) + post, "viewBox")
  {
    var attrs := ViewBoxAttribute(w, h);
    var s := pre + " " + attrs + post;
    var k := |pre| + 1;
    var close := k + |attrs| - 1;
    assert attrs[..9] == "viewBox=\"" && attrs[|attrs| - 1] == '"';
    assert s == pre + " " + attrs + post;
    assert s[k - 1] == ' ';
    assert s[k..k + 9] == attrs[..9];
    assert s[close] == '"';
    assert FindChar(s, '"', k + 9) >= 0;
    HasAttributeAt(s, "viewBox", k);
  }

  /** A text with a whole `width` attribute that gains a `viewBox` needs no size fix. */
  lemma SettledAfterViewBox(pre: string, w: string, h: string, post: string)
    requires HasAttribute(pre, "width")
    ensures IntendedSizeFix(pre + " " + ViewBoxAttribute(w, h) + post) == NoSizeFix
  {
    var out := pre + " " + ViewBoxAttribute(w, h) + post;
    ViewBoxWritten(pre, w, h, post);
    var i := FirstAttribute(pre, "width", 0, true);
    StringAssoc(pre, " " + ViewBoxAttribute(w, h), post);
    StringAssoc(pre, " ", ViewBoxAttribute(w, h));
    AttributeKept(pre, " " + ViewBoxAttribute(w, h) + post, "width", i, true);
    HasAttributeAt(out, "width", i);
  }

  /**
   * Once a `viewBox` has been added to an `<svg>` tag that carries the
   * width, the size step asks for nothing more.
   */
  lemma ViewBoxSettles(name: string, body: string, rest: string, w: string, h: string)
    requires SameLetters(name, "svg") && '>' !in body
    requires HasAttribute("<" + name + body, "width")
    requires IntendedSizeFix("<" + name + body + ">" + rest) == AddViewBox
    requires AttributeValue("<" + name + body + ">" + rest, "width") == Some(w)
    requires AttributeValue("<" + name + body + ">" + rest, "height") == Some(h)
    ensures IntendedFixSize("<" + name + body + ">" + rest).Ok?
    ensures IntendedSizeFix(IntendedFixSize("<" + name + body + ">" + rest).value) == NoSizeFix
  {
    ViewBoxAddedToTag(name, body, rest, w, h);
    var pre := "<" + name + body;
    var attrs := ViewBoxAttribute(w, h);
    var tail := AppendAttributesToTags(rest, "svg", attrs);
    StringAssoc(pre + " " + attrs, ">", tail);
    SettledAfterViewBox(pre, w, h, ">" + tail);
  }
}
