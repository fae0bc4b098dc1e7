/**
 * The typography importer: the build step that reads the
 * `$typography-styles: ( … )` map of the typography stylesheet and turns it
 * into the categories of type definitions shown in the type gallery.
 *
 * Three passes, each a loop over its input that the source writes with
 * pushes into a result array:
 *   1. `toCustomFormat` keeps the lines inside the map, rewriting each
 *      `name: (` opening into a `> name` header line;
 *   2. `transformToObjects` groups those lines into records, one per header;
 *   3. `transformToDefinition` groups the records by the first dash-separated
 *      part of their names, classifying the remaining parts with
 *      `identifyTypeInfo`.
 * Each pass is a method proved equal to a function, and the properties are
 * proved about the functions.
 */
module TypographyImporter {
  import opened Wrappers
  import opened Strings

  /** The text that marks the line opening the styles map. */
  const STYLES_START: string := "$typography-styles: ("

  // ---------------------------------------------------------------------------
  // String helpers: toTitleCase and kebabToCamel
  // ---------------------------------------------------------------------------

  /** The characters of the regular-expression class `\w`. */
  predicate IsWordChar(c: char) {
    IsAsciiLower(c) || IsAsciiUpper(c) || ('0' <= c <= '9') || c == '_'
  }

  /** The length of the longest prefix of `s` without whitespace: what `\S*` matches at the start of `s`. */
  function RunLength(s: string): (n: nat)
    ensures n <= |s|
    ensures forall i :: 0 <= i < n ==> !IsWhitespace(s[i])
    ensures n < |s| ==> IsWhitespace(s[n])
  {
    if s == [] || IsWhitespace(s[0]) then 0 else 1 + RunLength(s[1..])
  }

  /**
   * `input.replace(/\w\S*\/g, word => upper(first) + lower(rest))`: every
   * match starts at a word character and runs to the next whitespace; the
   * first character is upper-cased and the rest lower-cased.
   */
  function TitleWords(s: string): (r: string)
    ensures |r| == |s|
    decreases |s|
  {
    if s == [] then []
    else if IsWordChar(s[0]) then
      var n := RunLength(s[1..]);
      [UpperChar(s[0])] + Lower(s[1..1 + n]) + TitleWords(s[1 + n..])
    else
      [s[0]] + TitleWords(s[1..])
  }

  /** `r` is `s` with only the letter case of some characters changed. */
  predicate SameUpToCase(r: string, s: string) {
    && |r| == |s|
    && forall i :: 0 <= i < |s| ==>
      LowerChar(r[i]) == LowerChar(s[i]) && (IsWhitespace(r[i]) <==> IsWhitespace(s[i]))
  }

  lemma SameUpToCaseConcat(x: string, a: string, y: string, b: string)
    requires SameUpToCase(x, a) && SameUpToCase(y, b)
    ensures SameUpToCase(x + y, a + b)
  {
    forall i | 0 <= i < |a + b|
      ensures LowerChar((x + y)[i]) == LowerChar((a + b)[i])
      ensures IsWhitespace((x + y)[i]) <==> IsWhitespace((a + b)[i])
    {
      if i >= |a| {
        assert (x + y)[i] == y[i - |a|] && (a + b)[i] == b[i - |a|];
      }
    }
  }

  lemma LowerSameUpToCase(t: string)
    ensures SameUpToCase(Lower(t), t)
  {
  }

  /** Title-casing changes only the letter case of characters, so whitespace stays where it was. */
  lemma {:induction false} TitleWordsOnlyCase(s: string)
    ensures SameUpToCase(TitleWords(s), s)
    decreases |s|
  {
    if s != [] {
      if IsWordChar(s[0]) {
        var n := RunLength(s[1..]);
        TitleWordsOnlyCase(s[1 + n..]);
        LowerSameUpToCase(s[1..1 + n]);
        assert SameUpToCase([UpperChar(s[0])], [s[0]]);
        SameUpToCaseConcat([UpperChar(s[0])], [s[0]], Lower(s[1..1 + n]), s[1..1 + n]);
        SameUpToCaseConcat([UpperChar(s[0])] + Lower(s[1..1 + n]), [s[0]] + s[1..1 + n],
          TitleWords(s[1 + n..]), s[1 + n..]);
        assert s == [s[0]] + s[1..1 + n] + s[1 + n..];
      } else {
        TitleWordsOnlyCase(s[1..]);
        SameUpToCaseConcat([s[0]], [s[0]], TitleWords(s[1..]), s[1..]);
        assert s == [s[0]] + s[1..];
      }
    }
  }

  /** `toTitleCase`: "ui" becomes "UI"; anything else is title-cased word by word. */
  function ToTitleCase(input: string): (r: string)
    ensures input == "ui" ==> r == "UI"
    ensures input != "ui" ==> r == TitleWords(input)
    ensures SameUpToCase(r, input)
  {
    TitleWordsOnlyCase(input);
    if input == "ui" then "UI" else TitleWords(input)
  }

  /** With `s` free of whitespace from its start to its end, `RunLength` covers all of it. */
  lemma {:induction false} RunLengthStopsAtSpace(x: string, w: char, y: string)
    requires IsWhitespace(w)
    ensures RunLength(x + [w] + y) == RunLength(x)
  {
    if x == [] {
      assert (x + [w] + y)[0] == w;
    } else {
      assert (x + [w] + y)[1..] == x[1..] + [w] + y;
      RunLengthStopsAtSpace(x[1..], w, y);
    }
  }

  /** Words are title-cased independently: a whitespace character splits the work in two. */
  lemma {:induction false} TitleWordsSplitAtSpace(a: string, w: char, b: string)
    requires IsWhitespace(w)
    ensures TitleWords(a + [w] + b) == TitleWords(a) + [w] + TitleWords(b)
    decreases |a|
  {
    if a == [] {
      var s := a + [w] + b;
      assert s == [w] + b;
      assert s[1..] == b;
    } else if IsWordChar(a[0]) {
      var n := RunLength(a[1..]);
      TitleWordsSplitAtSpace(a[1 + n..], w, b);
      WordBeforeSpace(a, w, b);
    } else {
      TitleWordsSplitAtSpace(a[1..], w, b);
      OtherBeforeSpace(a, w, b);
    }
  }

  /** The inductive step of `TitleWordsSplitAtSpace` when `a` starts with a word. */
  lemma WordBeforeSpace(a: string, w: char, b: string)
    requires IsWhitespace(w) && a != [] && IsWordChar(a[0])
    requires var n := RunLength(a[1..]);
      TitleWords(a[1 + n..] + [w] + b) == TitleWords(a[1 + n..]) + [w] + TitleWords(b)
    ensures TitleWords(a + [w] + b) == TitleWords(a) + [w] + TitleWords(b)
  {
    var s := a + [w] + b;
    var n := RunLength(a[1..]);
    var word := [UpperChar(a[0])] + Lower(a[1..1 + n]);
    FirstWordBeforeSpace(a, w, b);
    calc {
      TitleWords(s);
      [UpperChar(s[0])] + Lower(s[1..1 + n]) + TitleWords(s[1 + n..]);
      word + TitleWords(a[1 + n..] + [w] + b);
      word + (TitleWords(a[1 + n..]) + [w] + TitleWords(b));
      { AppendAssoc3(word, TitleWords(a[1 + n..]), [w], TitleWords(b)); }
      word + TitleWords(a[1 + n..]) + [w] + TitleWords(b);
      TitleWords(a) + [w] + TitleWords(b);
    }
  }

  /** The first word of `a` is also the first word of `a`, a space and `b`. */
  lemma FirstWordBeforeSpace(a: string, w: char, b: string)
    requires IsWhitespace(w) && a != []
    ensures var s, n := a + [w] + b, RunLength(a[1..]);
      && s[0] == a[0] && RunLength(s[1..]) == n
      && s[1..1 + n] == a[1..1 + n] && s[1 + n..] == a[1 + n..] + [w] + b
  {
    var s := a + [w] + b;
    assert s[1..] == a[1..] + [w] + b;
    RunLengthStopsAtSpace(a[1..], w, b);
  }

  /** The inductive step of `TitleWordsSplitAtSpace` when `a` starts with another character. */
  lemma OtherBeforeSpace(a: string, w: char, b: string)
    requires IsWhitespace(w) && a != [] && !IsWordChar(a[0])
    requires TitleWords(a[1..] + [w] + b) == TitleWords(a[1..]) + [w] + TitleWords(b)
    ensures TitleWords(a + [w] + b) == TitleWords(a) + [w] + TitleWords(b)
  {
    var s := a + [w] + b;
    assert s[1..] == a[1..] + [w] + b;
    assert TitleWords(s) == [a[0]] + TitleWords(a[1..] + [w] + b);
    AppendAssoc3([a[0]], TitleWords(a[1..]), [w], TitleWords(b));
  }

  lemma AppendAssoc3(x: string, y: string, z: string, u: string)
    ensures x + (y + z + u) == x + y + z + u
  {
  }

  /** A single word starting with a word character: its first letter upper-cased, the rest lower-cased. */
  lemma TitleWordsOfWord(word: string)
    requires |word| >= 1 && IsWordChar(word[0])
    requires RunLength(word) == |word|
    ensures TitleWords(word) == [UpperChar(word[0])] + Lower(word[1..])
  {
    assert !IsWhitespace(word[0]);
    assert RunLength(word[1..]) == |word| - 1;
    assert word[1..1 + (|word| - 1)] == word[1..];
    assert word[|word|..] == [];
  }

  /** A hyphen immediately followed by an ASCII lower-case letter. */
  predicate KebabJointAt(s: string, i: int) {
    0 <= i < |s| - 1 && s[i] == '-' && IsAsciiLower(s[i + 1])
  }

  predicate NoKebabJoint(s: string) {
    forall i :: 0 <= i < |s| ==> !KebabJointAt(s, i)
  }

  /**
   * `kebabToCamel`: `replace(/-([a-z])/g, upper)`. No hyphen followed by a
   * lower-case letter survives, and a string without one is returned as is.
   */
  function KebabToCamel(s: string): (r: string)
    ensures |r| <= |s|
    ensures NoKebabJoint(r)
    ensures |s| > 0 && !IsAsciiLower(s[0]) ==> |r| > 0 && !IsAsciiLower(r[0])
    ensures NoKebabJoint(s) ==> r == s
  {
    if |s| >= 2 && s[0] == '-' && IsAsciiLower(s[1]) then
      assert !NoKebabJoint(s) by { assert KebabJointAt(s, 0); }
      var rest := KebabToCamel(s[2..]);
      assert forall i :: 0 <= i < 1 + |rest| && KebabJointAt([UpperChar(s[1])] + rest, i) ==> KebabJointAt(rest, i - 1);
      [UpperChar(s[1])] + rest
    else if s == [] then []
    else
      var rest := KebabToCamel(s[1..]);
      assert forall i :: 0 <= i < |s| - 1 && KebabJointAt(s[1..], i) ==> KebabJointAt(s, i + 1);
      assert forall i :: 0 <= i < 1 + |rest| && KebabJointAt([s[0]] + rest, i) ==> i == 0 || KebabJointAt(rest, i - 1);
      [s[0]] + rest
  }

  /** Converting is idempotent. */
  lemma KebabToCamelIdempotent(s: string)
    ensures KebabToCamel(KebabToCamel(s)) == KebabToCamel(s)
  {
  }

  // ---------------------------------------------------------------------------
  // Pass 1: toCustomFormat
  // ---------------------------------------------------------------------------

  /** No line opens the styles map. */
  predicate NoStyleLine(lines: seq<string>) {
    forall j :: 0 <= j < |lines| ==> !Includes(lines[j], STYLES_START)
  }

  /** `findIndex` of the line that opens the styles map. */
  function FirstStyleLine(lines: seq<string>): (r: int)
    ensures -1 <= r < |lines|
  {
    if lines == [] then -1
    else if Includes(lines[0], STYLES_START) then 0
    else
      var r := FirstStyleLine(lines[1..]);
      if r == -1 then -1 else r + 1
  }

  /** The index found is the first opening line, and -1 means there is none. */
  lemma {:induction false} FirstStyleLineIsFirst(lines: seq<string>)
    ensures var r := FirstStyleLine(lines);
      && (r == -1 <==> NoStyleLine(lines))
      && (r >= 0 ==> Includes(lines[r], STYLES_START))
      && forall j :: 0 <= j < |lines| && (r == -1 || j < r) ==> !Includes(lines[j], STYLES_START)
  {
    if lines != [] && !Includes(lines[0], STYLES_START) {
      FirstStyleLineIsFirst(lines[1..]);
      forall j | 1 <= j < |lines| ensures lines[j] == lines[1..][j - 1] {}
    }
  }

  /** `replace(/,$/, '')`: one trailing comma is dropped. */
  function DropTrailingComma(s: string): string {
    if |s| > 0 && s[|s| - 1] == ',' then s[..|s| - 1] else s
  }

  /** Exactly one trailing comma goes, and a string without one is kept. */
  lemma DropTrailingCommaSpec(s: string)
    ensures EndsWith(s, ",") ==> DropTrailingComma(s) + "," == s
    ensures !EndsWith(s, ",") ==> DropTrailingComma(s) == s
  {
    if |s| > 0 {
      assert s[|s| - 1..] == [s[|s| - 1]];
    }
  }

  /** The change in the bracket count a line makes. */
  function BracketDelta(line: string): int {
    Count(line, '(') as int - Count(line, ')') as int
  }

  /**
   * Lines `toCustomFormat` skips: `)`, `),`, `(` and comments starting with
   * `//`, compared character by character (`IsSkippedIff` states it with the
   * string comparisons).
   */
  predicate IsSkipped(t: string) {
    || (|t| == 1 && (t[0] == ')' || t[0] == '('))
    || (|t| == 2 && t[0] == ')' && t[1] == ',')
    || (|t| >= 2 && t[0] == '/' && t[1] == '/')
  }

  lemma IsSkippedIff(t: string)
    ensures IsSkipped(t) <==> t == ")" || t == ")," || t == "(" || StartsWith(t, "//")
  {
    if |t| >= 2 {
      assert StartsWith(t, "//") <==> t[0] == '/' && t[1] == '/' by {
        assert t[..2] == [t[0], t[1]];
      }
    }
    if |t| == 1 {
      assert t == [t[0]];
    }
    if |t| == 2 {
      assert t == [t[0], t[1]];
    }
  }

  /** Lines that end in `: (` or in `:`: they become headers. */
  predicate IsOpening(t: string) {
    || (|t| >= 3 && t[|t| - 3] == ':' && t[|t| - 2] == ' ' && t[|t| - 1] == '(')
    || (|t| >= 1 && t[|t| - 1] == ':')
  }

  lemma IsOpeningIff(t: string)
    ensures IsOpening(t) <==> EndsWith(t, ": (") || EndsWith(t, ":")
  {
    if |t| >= 3 {
      assert t[|t| - 3..] == [t[|t| - 3], t[|t| - 2], t[|t| - 1]];
    }
    if |t| >= 1 {
      assert t[|t| - 1..] == [t[|t| - 1]];
    }
  }

  /** Trimming adds no character. */
  lemma TrimExcludes(s: string, c: char)
    requires c !in s
    ensures c !in Trim(s)
  {
    var a, b := TrimSlice(s);
    assert forall k :: 0 <= k < b - a ==> s[a..b][k] == s[a + k];
  }

  /**
   * What one line inside the map becomes: nothing for a skipped line,
   * `> name` (the trimmed text before the line's first colon) for an opening
   * line, and the trimmed line without its trailing comma otherwise.
   */
  function FormatLine(line: string): Option<string> {
    var t := DropTrailingComma(Trim(line));
    if IsSkipped(t) then None
    else if IsOpening(t) then Some("> " + Trim(Split(line, ':')[0]))
    else Some(t)
  }

  /** A line the scan would skip never reaches the output. */
  predicate Unskippable(v: string) {
    !IsSkipped(v)
  }

  predicate AllUnskippable(out: seq<string>) {
    forall k :: 0 <= k < |out| ==> Unskippable(out[k])
  }

  /** A skipped line yields nothing, and what a line yields is never a lone bracket or a comment. */
  lemma FormatLineNotSkipped(line: string)
    ensures FormatLine(line).None? <==> IsSkipped(DropTrailingComma(Trim(line)))
    ensures AllUnskippable(OptionList(FormatLine(line)))
  {
    var t := DropTrailingComma(Trim(line));
    if IsSkipped(t) {
      assert OptionList(FormatLine(line)) == [];
    } else if IsOpening(t) {
      var v := "> " + Trim(Split(line, ':')[0]);
      HeaderUnskippable(Trim(Split(line, ':')[0]));
      assert OptionList(FormatLine(line)) == [v];
    } else {
      assert OptionList(FormatLine(line)) == [t];
    }
  }

  /** A header line is never skipped. */
  lemma HeaderUnskippable(name: string)
    ensures Unskippable("> " + name)
  {
    assert ("> " + name)[0] == '>' && ("> " + name)[1] == ' ';
  }

  /** A header line carries the text before the first colon, and so no colon. */
  lemma FormatLineHeader(line: string)
    requires var t := DropTrailingComma(Trim(line)); !IsSkipped(t) && IsOpening(t)
    ensures FormatLine(line).Some?
    ensures StartsWith(FormatLine(line).value, "> ") && ':' !in FormatLine(line).value
  {
    var piece := Split(line, ':')[0];
    SplitNoSeparator(line, ':');
    assert FormatLine(line) == Some("> " + Trim(piece));
    TrimExcludes(piece, ':');
    HeaderNoColon(Trim(piece));
  }

  lemma HeaderNoColon(name: string)
    requires ':' !in name
    ensures StartsWith("> " + name, "> ") && ':' !in "> " + name
  {
    var v := "> " + name;
    assert v[..2] == "> ";
    assert forall k :: 2 <= k < |v| ==> v[k] == name[k - 2];
  }

  function OptionList(o: Option<string>): seq<string> {
    if o.Some? then [o.value] else []
  }

  /** What the scan needs from one line: its bracket change and what it yields. */
  datatype ScannedLine = ScannedLine(delta: int, out: Option<string>)

  function ScanLine(line: string): ScannedLine {
    ScannedLine(BracketDelta(line), FormatLine(line))
  }

  function ScanLines(lines: seq<string>): (r: seq<ScannedLine>)
    ensures |r| == |lines|
  {
    seq(|lines|, k requires 0 <= k < |lines| => ScanLine(lines[k]))
  }

  /** Scanning line by line: the first line's scan, then the scan of the rest. */
  lemma ScanLinesTail(lines: seq<string>)
    requires lines != []
    ensures ScanLines(lines)[0] == ScanLine(lines[0])
    ensures ScanLines(lines)[1..] == ScanLines(lines[1..])
  {
  }

  lemma AppendAssoc(a: seq<string>, b: seq<string>, c: seq<string>)
    ensures a + (b + c) == a + b + c
  {
  }

  /** One step of the scan: the first line, already scanned, then the rest. */
  lemma ScanHead(lines: seq<string>, count: int, delta: int, out: Option<string>)
    requires lines != [] && ScannedLine(delta, out) == ScanLine(lines[0])
    ensures ScanBody(ScanLines(lines), count) ==
      if count + delta == 0 then [] else OptionList(out) + ScanBody(ScanLines(lines[1..]), count + delta)
  {
    ScanLinesTail(lines);
  }

  /**
   * The output for the lines after the opening line, entered with running
   * bracket count `count`: it stops before the first line that brings the
   * count to zero.
   */
  function ScanBody(lines: seq<ScannedLine>, count: int): seq<string>
    decreases |lines|
  {
    if lines == [] then []
    else
      var c := count + lines[0].delta;
      if c == 0 then [] else OptionList(lines[0].out) + ScanBody(lines[1..], c)
  }

  /** Every line yields a line that is neither a lone bracket nor a comment. */
  predicate OutputsUnskippable(lines: seq<ScannedLine>) {
    forall k :: 0 <= k < |lines| ==> AllUnskippable(OptionList(lines[k].out))
  }

  /** No skipped line ever reaches the output. */
  lemma {:induction false} ScanBodyNoSkipped(lines: seq<ScannedLine>, count: int)
    requires OutputsUnskippable(lines)
    ensures AllUnskippable(ScanBody(lines, count))
    decreases |lines|
  {
    if lines != [] {
      var c := count + lines[0].delta;
      if c != 0 {
        assert OutputsUnskippable(lines[1..]) by {
          forall k | 0 <= k < |lines| - 1 ensures lines[1..][k] == lines[k + 1] {}
        }
        assert AllUnskippable(OptionList(lines[0].out));
        ScanBodyNoSkipped(lines[1..], c);
        AllUnskippableAppend(OptionList(lines[0].out), ScanBody(lines[1..], c));
      }
    }
  }

  lemma AllUnskippableAppend(a: seq<string>, b: seq<string>)
    requires AllUnskippable(a) && AllUnskippable(b)
    ensures AllUnskippable(a + b)
  {
    forall k | 0 <= k < |a + b| ensures Unskippable((a + b)[k]) {
      if k < |a| {
        assert (a + b)[k] == a[k];
      } else {
        assert (a + b)[k] == b[k - |a|];
      }
    }
  }

  /** Real lines yield nothing that is skipped. */
  lemma ScanLinesUnskippable(lines: seq<string>)
    ensures OutputsUnskippable(ScanLines(lines))
  {
    forall k | 0 <= k < |lines| ensures AllUnskippable(OptionList(ScanLines(lines)[k].out)) {
      FormatLineNotSkipped(lines[k]);
    }
  }

  /** The running bracket count after line `j`, starting from `count`. */
  function Running(lines: seq<ScannedLine>, count: int, j: nat): int
    requires j < |lines|
    decreases j
  {
    var c := count + lines[0].delta;
    if j == 0 then c else Running(lines[1..], c, j - 1)
  }

  /** The output of every line, with no stopping rule. */
  function FormatAll(lines: seq<ScannedLine>): seq<string>
    decreases |lines|
  {
    if lines == [] then [] else OptionList(lines[0].out) + FormatAll(lines[1..])
  }

  /** `toCustomFormat` on the whole stylesheet text. */
  function CustomFormat(content: string): (r: seq<string>)
    ensures NoStyleLine(Split(content, '\n')) ==> r == []
  {
    var lines := Split(content, '\n');
    FirstStyleLineIsFirst(lines);
    var start := FirstStyleLine(lines);
    if start == -1 then [] else ScanBody(ScanLines(lines[start + 1..]), 1)
  }

  /** The output never holds a lone bracket or a comment. */
  lemma CustomFormatNoSkipped(content: string)
    ensures AllUnskippable(CustomFormat(content))
  {
    var lines := Split(content, '\n');
    var start := FirstStyleLine(lines);
    if start == -1 {
      assert CustomFormat(content) == [];
    } else {
      var body := ScanLines(lines[start + 1..]);
      ScanLinesUnskippable(lines[start + 1..]);
      ScanBodyNoSkipped(body, 1);
      assert CustomFormat(content) == ScanBody(body, 1);
    }
  }

  /**
   * The scan keeps exactly the formatted lines before the first line at
   * which the running count is zero (all lines when there is none).
   */
  lemma {:induction false} ScanBodyStops(lines: seq<ScannedLine>, count: int, k: nat)
    requires k <= |lines|
    requires forall j :: 0 <= j < k ==> Running(lines, count, j) != 0
    requires k == |lines| || Running(lines, count, k) == 0
    ensures ScanBody(lines, count) == FormatAll(lines[..k])
    decreases |lines|
  {
    if lines != [] {
      var c := count + lines[0].delta;
      assert Running(lines, count, 0) == c;
      if k > 0 {
        assert forall j :: 0 <= j < k - 1 ==> Running(lines[1..], c, j) != 0 by {
          forall j | 0 <= j < k - 1 ensures Running(lines[1..], c, j) != 0 {
            assert Running(lines, count, j + 1) == Running(lines[1..], c, j);
          }
        }
        assert k - 1 == |lines[1..]| || Running(lines[1..], c, k - 1) == 0 by {
          if k < |lines| {
            assert Running(lines, count, k) == Running(lines[1..], c, k - 1);
          }
        }
        ScanBodyStops(lines[1..], c, k - 1);
        assert lines[..k][0] == lines[0];
        assert lines[..k][1..] == lines[1..][..k - 1];
      } else {
        assert lines[..k] == [];
      }
    }
  }

  /** `toCustomFormat`: the scan over the split lines, proved equal to `CustomFormat`. */
  method ToCustomFormat(content: string) returns (result: seq<string>)
    ensures result == CustomFormat(content)
  {
    var lines := Split(content, '\n');
    var startIndex := FirstStyleLine(lines);
    if startIndex == -1 {
      return [];
    }
    result := ScanFrom(lines, startIndex + 1);
  }

  /** The loop of `toCustomFormat`, started below the opening line with one bracket open. */
  method ScanFrom(lines: seq<string>, from: nat) returns (result: seq<string>)
    requires from <= |lines|
    ensures result == ScanBody(ScanLines(lines[from..]), 1)
  {
    ghost var total := ScanBody(ScanLines(lines[from..]), 1);
    var bracketCount := 1;
    result := [];
    var rest := lines[from..];
    var closed := false;
    while rest != [] && !closed
      invariant !closed ==> total == result + ScanBody(ScanLines(rest), bracketCount)
      invariant closed ==> result == total
      decreases |rest|, if closed then 0 else 1
    {
      var delta, out := ScanOne(rest[0]);
      ScanHead(rest, bracketCount, delta, out);
      bracketCount := bracketCount + delta;
      if bracketCount == 0 {
        closed := true;
      } else {
        ghost var tail := ScanBody(ScanLines(rest[1..]), bracketCount);
        AppendAssoc(result, OptionList(out), tail);
        assert total == result + OptionList(out) + tail;
        result := result + OptionList(out);
        rest := rest[1..];
      }
    }
  }

  /** The body of the `toCustomFormat` loop for one line: count its brackets, then format it. */
  method ScanOne(line: string) returns (delta: int, out: Option<string>)
    ensures ScannedLine(delta, out) == ScanLine(line)
  {
    delta := Count(line, '(');
    delta := delta - Count(line, ')');
    var trimmedLine := DropTrailingComma(Trim(line));
    if IsSkipped(trimmedLine) {
      out := None;
    } else if IsOpening(trimmedLine) {
      var name := Split(line, ':')[0];
      out := Some("> " + Trim(name));
    } else {
      out := Some(trimmedLine);
    }
  }

  // ---------------------------------------------------------------------------
  // Pass 2: transformToObjects
  // ---------------------------------------------------------------------------

  /** A record under construction: property names to values, `None` standing for `undefined`. */
  type TypeObject = map<string, Option<string>>

  /** `currentObject.name` is truthy. */
  predicate IsNamed(o: TypeObject) {
    "name" in o && o["name"].Some? && o["name"].value != ""
  }

  predicate IsQuote(c: char) {
    c == '"' || c == '\''
  }

  /** `key.replace(/^["']|["']$/g, '')`: one leading and one trailing quote go. */
  function StripQuotes(key: string): (r: string)
    ensures |key| >= 2 && IsQuote(key[0]) && IsQuote(key[|key| - 1]) ==> r == key[1..|key| - 1]
    ensures (key == [] || !IsQuote(key[0])) && (key == [] || !IsQuote(key[|key| - 1])) ==> r == key
    ensures |r| + 2 >= |key|
  {
    var a := if |key| > 0 && IsQuote(key[0]) then key[1..] else key;
    if |a| > 0 && IsQuote(a[|a| - 1]) then a[..|a| - 1] else a
  }

  /** A header line starts with `>`; its name is everything after the first two characters, trimmed. */
  predicate IsHeader(line: string)
    ensures IsHeader(line) <==> StartsWith(line, ">")
  {
    line != [] && line[0] == '>'
  }

  function HeaderName(line: string): string {
    Trim(if |line| >= 2 then line[2..] else [])
  }

  /** The property a non-header line sets: the camel-cased unquoted key and the second colon-separated segment. */
  function PropertyOf(line: string): (string, Option<string>) {
    var parts := Split(line, ':');
    var value := if |parts| >= 2 then Some(Trim(parts[1])) else None;
    (KebabToCamel(StripQuotes(Trim(parts[0]))), value)
  }

  /** What one line of the custom format says: start a record, or set one property. */
  datatype Line = Header(name: string) | Property(key: string, value: Option<string>)

  /** The per-line parsing of `transformToObjects`. */
  function ParseLine(line: string): (r: Line)
    ensures r.Header? <==> StartsWith(line, ">")
    ensures r.Header? ==> r.name == HeaderName(line)
    ensures r.Property? ==> r.key == PropertyOf(line).0 && r.value == PropertyOf(line).1
  {
    if IsHeader(line) then Header(HeaderName(line))
    else
      var property := PropertyOf(line);
      Property(property.0, property.1)
  }

  function ParseLines(lines: seq<string>): (r: seq<Line>)
    ensures |r| == |lines|
    ensures forall k :: 0 <= k < |lines| ==> r[k] == ParseLine(lines[k])
  {
    if lines == [] then [] else [ParseLine(lines[0])] + ParseLines(lines[1..])
  }

  /** The records emitted so far and the one being filled. */
  datatype ObjectsState = ObjectsState(done: seq<TypeObject>, current: TypeObject)

  const INITIAL_OBJECTS: ObjectsState := ObjectsState([], map[])

  /** The records once the current one is emitted, if it is named. */
  function Flush(st: ObjectsState): seq<TypeObject> {
    st.done + (if IsNamed(st.current) then [st.current] else [])
  }

  function ObjectsStep(st: ObjectsState, line: Line): ObjectsState {
    match line
    case Header(name) => ObjectsState(Flush(st), map["name" := Some(name)])
    case Property(key, value) => st.(current := st.current[key := value])
  }

  predicate AllNamed(objs: seq<TypeObject>) {
    forall k :: 0 <= k < |objs| ==> IsNamed(objs[k])
  }

  /** Emitting the current record keeps every emitted record named. */
  lemma FlushNamed(st: ObjectsState)
    requires AllNamed(st.done)
    ensures AllNamed(Flush(st))
  {
  }

  /** The state after the lines, one step per line. */
  function ObjectsFold(st: ObjectsState, lines: seq<Line>): ObjectsState
    decreases |lines|
  {
    if lines == [] then st else ObjectsFold(ObjectsStep(st, lines[0]), lines[1..])
  }

  /** Emitted records are never changed or taken back. */
  lemma {:induction false} ObjectsFoldKeepsDone(st: ObjectsState, lines: seq<Line>)
    ensures st.done <= ObjectsFold(st, lines).done
    decreases |lines|
  {
    if lines != [] {
      var st' := ObjectsStep(st, lines[0]);
      assert st.done <= st'.done;
      ObjectsFoldKeepsDone(st', lines[1..]);
    }
  }

  lemma {:induction false} ObjectsFoldNamed(st: ObjectsState, lines: seq<Line>)
    requires AllNamed(st.done)
    ensures AllNamed(ObjectsFold(st, lines).done)
    decreases |lines|
  {
    if lines != [] {
      var st' := ObjectsStep(st, lines[0]);
      if lines[0].Header? {
        assert st'.done == Flush(st);
        FlushNamed(st);
      } else {
        assert st'.done == st.done;
      }
      ObjectsFoldNamed(st', lines[1..]);
    }
  }

  /** `transformToObjects` on parsed lines: only named records are emitted. */
  function ObjectsOf(lines: seq<Line>): (r: seq<TypeObject>)
    ensures AllNamed(r)
  {
    ObjectsFoldNamed(INITIAL_OBJECTS, lines);
    FlushNamed(ObjectsFold(INITIAL_OBJECTS, lines));
    Flush(ObjectsFold(INITIAL_OBJECTS, lines))
  }

  /** `transformToObjects`. */
  function Objects(lines: seq<string>): (r: seq<TypeObject>)
    ensures AllNamed(r)
  {
    ObjectsOf(ParseLines(lines))
  }

  /** `transformToObjects`, proved equal to `Objects`. */
  method TransformToObjects(lines: seq<string>) returns (result: seq<TypeObject>)
    ensures result == Objects(lines)
  {
    result := [];
    var current: TypeObject := map[];
    ghost var parsed := ParseLines(lines);
    for i := 0 to |lines|
      invariant ObjectsFold(INITIAL_OBJECTS, parsed) == ObjectsFold(ObjectsState(result, current), parsed[i..])
    {
      assert parsed[i..][0] == ParseLine(lines[i]) && parsed[i..][1..] == parsed[i + 1..];
      result, current := ReadLine(result, current, lines[i]);
    }
    assert parsed[|lines|..] == [];
    if IsNamed(current) {
      result := result + [current];
    }
  }

  /** One iteration of `transformToObjects`: a header emits the current record and starts a new one; any other line sets a property. */
  method ReadLine(result: seq<TypeObject>, current: TypeObject, line: string)
    returns (result': seq<TypeObject>, current': TypeObject)
    ensures ObjectsState(result', current') == ObjectsStep(ObjectsState(result, current), ParseLine(line))
  {
    if line != [] && line[0] == '>' {
      result', current' := ReadHeader(result, current, line);
    } else {
      current' := ReadProperty(current, line);
      result' := result;
    }
  }

  method ReadHeader(result: seq<TypeObject>, current: TypeObject, line: string)
    returns (result': seq<TypeObject>, current': TypeObject)
    ensures result' == Flush(ObjectsState(result, current))
    ensures current' == map["name" := Some(HeaderName(line))]
  {
    var name := HeaderName(line);
    current' := map["name" := Some(name)];
    if IsNamed(current) {
      result' := result + [current];
    } else {
      result' := result;
    }
  }

  method ReadProperty(current: TypeObject, line: string) returns (current': TypeObject)
    ensures current' == current[PropertyOf(line).0 := PropertyOf(line).1]
  {
    var property := PropertyOf(line);
    current' := current[property.0 := property.1];
  }

  lemma {:induction false} ObjectsFoldAppend(st: ObjectsState, a: seq<Line>, b: seq<Line>)
    ensures ObjectsFold(st, a + b) == ObjectsFold(ObjectsFold(st, a), b)
    decreases |a|
  {
    if a == [] {
      assert a + b == b;
    } else {
      var st' := ObjectsStep(st, a[0]);
      assert (a + b)[0] == a[0] && (a + b)[1..] == a[1..] + b;
      assert ObjectsFold(st, a + b) == ObjectsFold(st', a[1..] + b);
      assert ObjectsFold(st, a) == ObjectsFold(st', a[1..]);
      ObjectsFoldAppend(st', a[1..], b);
    }
  }

  /** Property lines that do not set `name`. */
  predicate PlainProperties(lines: seq<Line>) {
    forall k :: 0 <= k < |lines| ==> lines[k].Property? && lines[k].key != "name"
  }

  lemma {:induction false} PlainPropertiesKeepName(st: ObjectsState, lines: seq<Line>)
    requires PlainProperties(lines)
    ensures ObjectsFold(st, lines).done == st.done
    ensures ("name" in ObjectsFold(st, lines).current) == ("name" in st.current)
    decreases |lines|
  {
    if lines != [] {
      assert PlainProperties(lines[1..]) by {
        forall k | 0 <= k < |lines| - 1 ensures lines[1..][k] == lines[k + 1] {}
      }
      assert lines[0].Property? && lines[0].key != "name";
      PlainPropertiesKeepName(ObjectsStep(st, lines[0]), lines[1..]);
    }
  }

  /** Lines before the first header are dropped, as long as none of them names the record. */
  lemma LeadingLinesDropped(p: seq<Line>, q: seq<Line>)
    requires PlainProperties(p)
    requires |q| > 0 && q[0].Header?
    ensures ObjectsOf(p + q) == ObjectsOf(q)
  {
    ObjectsFoldAppend(INITIAL_OBJECTS, p, q);
    PlainPropertiesKeepName(INITIAL_OBJECTS, p);
    var st := ObjectsFold(INITIAL_OBJECTS, p);
    assert ObjectsStep(st, q[0]) == ObjectsStep(INITIAL_OBJECTS, q[0]);
  }

  /** The names of the records, `""` for an unnamed one. */
  function Names(objs: seq<TypeObject>): (r: seq<string>)
    ensures |r| == |objs|
  {
    if objs == [] then []
    else Names(objs[..|objs| - 1]) + [if IsNamed(objs[|objs| - 1]) then objs[|objs| - 1]["name"].value else ""]
  }

  /** The names of the header lines, in order. */
  function HeaderNames(lines: seq<Line>): seq<string> {
    if lines == [] then []
    else (if lines[0].Header? then [lines[0].name] else []) + HeaderNames(lines[1..])
  }

  /** A header names its record, and a property line does not rename one. */
  predicate WellFormedLine(line: Line) {
    match line
    case Header(name) => name != ""
    case Property(key, _) => key != "name"
  }

  predicate WellFormedRecords(lines: seq<Line>) {
    forall k :: 0 <= k < |lines| ==> WellFormedLine(lines[k])
  }

  /** One well-formed line adds its header name, if it is a header, to the names. */
  lemma NamesStep(st: ObjectsState, line: Line)
    requires WellFormedLine(line)
    ensures Names(Flush(ObjectsStep(st, line))) == Names(Flush(st)) + HeaderNames([line])
  {
    var st' := ObjectsStep(st, line);
    assert [line][1..] == [];
    if line.Header? {
      assert Flush(st') == Flush(st) + [st'.current];
      assert Flush(st')[..|Flush(st')| - 1] == Flush(st);
    } else {
      assert IsNamed(st'.current) == IsNamed(st.current);
      if IsNamed(st.current) {
        var f := Flush(st);
        var f' := Flush(st');
        assert f'[..|f'| - 1] == f[..|f| - 1] == st.done;
        assert f'[|f'| - 1]["name"] == f[|f| - 1]["name"];
      } else {
        assert Flush(st') == Flush(st);
      }
    }
  }

  lemma {:induction false} NamesFollowHeadersFrom(st: ObjectsState, lines: seq<Line>)
    requires WellFormedRecords(lines)
    ensures Names(Flush(ObjectsFold(st, lines))) == Names(Flush(st)) + HeaderNames(lines)
    decreases |lines|
  {
    if lines != [] {
      var line, rest := lines[0], lines[1..];
      assert WellFormedLine(line);
      assert WellFormedRecords(rest) by {
        forall k | 0 <= k < |rest| ensures rest[k] == lines[k + 1] {}
      }
      var st' := ObjectsStep(st, line);
      calc {
        Names(Flush(ObjectsFold(st, lines)));
        Names(Flush(ObjectsFold(st', rest)));
        { NamesFollowHeadersFrom(st', rest); }
        Names(Flush(st')) + HeaderNames(rest);
        { NamesStep(st, line); }
        Names(Flush(st)) + HeaderNames([line]) + HeaderNames(rest);
        { assert [line][1..] == []; }
        Names(Flush(st)) + HeaderNames(lines);
      }
    }
  }

  /** Each header line starts a new record: the records carry the header names, in order. */
  lemma NamesFollowHeaders(lines: seq<Line>)
    requires WellFormedRecords(lines)
    ensures Names(ObjectsOf(lines)) == HeaderNames(lines)
  {
    NamesFollowHeadersFrom(INITIAL_OBJECTS, lines);
    assert Flush(INITIAL_OBJECTS) == [];
  }

  // ---------------------------------------------------------------------------
  // identifyTypeInfo
  // ---------------------------------------------------------------------------

  datatype Letterform = Serif | Sans
  datatype Modifier = Bold | Italic
  datatype Size = Small | Large

  /** `TypeInfo`: every field optional. */
  datatype TypeInfo = TypeInfo(level: Option<nat>, letterform: Option<Letterform>, modifier: Option<Modifier>, size: Option<Size>)

  const EMPTY_INFO: TypeInfo := TypeInfo(None, None, None, None)

  predicate IsDigit(c: char) { '0' <= c <= '9' }

  /** Every character is a decimal digit. */
  predicate AllDigits(s: string) {
    s == [] || (AllDigits(s[..|s| - 1]) && IsDigit(s[|s| - 1]))
  }

  lemma {:induction false} AllDigitsAt(s: string, k: int)
    requires AllDigits(s) && 0 <= k < |s|
    ensures IsDigit(s[k])
  {
    if k < |s| - 1 {
      AllDigitsAt(s[..|s| - 1], k);
    }
  }

  /** The value of a string of decimal digits, the empty string being 0. */
  function DecimalValue(digits: string): nat
    requires AllDigits(digits)
  {
    if digits == [] then 0
    else DecimalValue(digits[..|digits| - 1]) * 10 + (digits[|digits| - 1] as int - '0' as int)
  }

  /**
   * `Number(part)` when it is not `NaN`: the trimmed part is either empty
   * (0) or a run of decimal digits (its value); otherwise `None`.
   */
  function NumberValue(part: string): (r: Option<nat>)
    ensures r.Some? ==> forall k :: 0 <= k < |part| ==> IsDigit(part[k]) || IsWhitespace(part[k])
  {
    var t := Trim(part);
    NumberPartChars(part);
    if t == [] then Some(0)
    else if AllDigits(t) then Some(DecimalValue(t))
    else None
  }

  /** A part whose trimmed text is blank or all digits holds only digits and whitespace. */
  lemma NumberPartChars(part: string)
    ensures (Trim(part) == [] || AllDigits(Trim(part))) ==>
      forall k :: 0 <= k < |part| ==> IsDigit(part[k]) || IsWhitespace(part[k])
  {
    var a, b := TrimSlice(part);
    var t := Trim(part);
    if AllDigits(t) {
      forall k | a <= k < b ensures IsDigit(part[k]) {
        assert part[k] == t[k - a];
        AllDigitsAt(t, k - a);
      }
    }
  }

  /** A blank part reads as 0. */
  lemma NumberValueBlank(part: string)
    requires AllWhitespace(part)
    ensures NumberValue(part) == Some(0)
  {
    TrimEmptyIffBlank(part);
  }

  /** A run of digits reads as its decimal value. */
  lemma NumberValueDigits(part: string)
    requires part != [] && AllDigits(part)
    ensures NumberValue(part) == Some(DecimalValue(part))
  {
    var a, b := TrimSlice(part);
    if a != 0 {
      AllDigitsAt(part, 0);
    }
    if b != |part| {
      AllDigitsAt(part, |part| - 1);
    }
    assert Trim(part) == part;
  }

  /** What one name part says about the style. */
  datatype PartKind = LevelPart(level: nat) | LetterformPart(letterform: Letterform)
                    | ModifierPart(modifier: Modifier) | SizePart(size: Size) | OtherPart

  /** The tests of one `identifyTypeInfo` iteration, in the order the source makes them. */
  function Classify(part: string): PartKind {
    var number := NumberValue(part);
    if number.Some? then LevelPart(number.value)
    else if part == "serif" || part == "sans" then LetterformPart(if part == "serif" then Serif else Sans)
    else if part == "bold" || part == "italic" then ModifierPart(if part == "bold" then Bold else Italic)
    else if part == "small" || part == "large" then SizePart(if part == "small" then Small else Large)
    else OtherPart
  }

  /** One iteration of `identifyTypeInfo`: the field the part speaks about is overwritten. */
  function InfoStep(info: TypeInfo, kind: PartKind): TypeInfo {
    match kind
    case LevelPart(n) => info.(level := Some(n))
    case LetterformPart(l) => info.(letterform := Some(l))
    case ModifierPart(m) => info.(modifier := Some(m))
    case SizePart(z) => info.(size := Some(z))
    case OtherPart => info
  }

  /** The information gathered from the parts, in order. */
  function InfoOf(parts: seq<string>): TypeInfo {
    if parts == [] then EMPTY_INFO else InfoStep(InfoOf(parts[..|parts| - 1]), Classify(parts[|parts| - 1]))
  }

  /** `identifyTypeInfo`, proved equal to `InfoOf`. */
  method IdentifyTypeInfo(parts: seq<string>) returns (info: TypeInfo)
    ensures info == InfoOf(parts)
  {
    info := EMPTY_INFO;
    for i := 0 to |parts|
      invariant info == InfoOf(parts[..i])
    {
      assert parts[..i + 1][..i] == parts[..i];
      info := ReadPart(info, parts[i]);
    }
    assert parts[..|parts|] == parts;
  }

  /** The body of the `identifyTypeInfo` loop. */
  method ReadPart(info: TypeInfo, part: string) returns (info': TypeInfo)
    ensures info' == InfoStep(info, Classify(part))
  {
    info' := info;
    var number := NumberValue(part);
    if number.Some? {
      info' := info.(level := number);
    } else if part == "serif" || part == "sans" {
      info' := info.(letterform := Some(if part == "serif" then Serif else Sans));
    } else if part == "bold" || part == "italic" {
      info' := info.(modifier := Some(if part == "bold" then Bold else Italic));
    } else if part == "small" || part == "large" {
      info' := info.(size := Some(if part == "small" then Small else Large));
    }
  }

  /** The last index whose part is one of `words`, or -1. */
  function LastIndexIn(parts: seq<string>, words: set<string>): (r: int)
    ensures -1 <= r < |parts|
    ensures r >= 0 ==> parts[r] in words
    ensures forall j :: r < j < |parts| ==> parts[j] !in words
  {
    if parts == [] then -1
    else if parts[|parts| - 1] in words then |parts| - 1
    else LastIndexIn(parts[..|parts| - 1], words)
  }

  /** The keywords never read as numbers. */
  lemma KeywordNotNumber(part: string)
    requires part == "serif" || part == "sans" || part == "bold" || part == "italic" || part == "small" || part == "large"
    ensures NumberValue(part).None?
  {
    assert !IsDigit(part[0]) && !IsWhitespace(part[0]);
  }

  /** Each keyword is classified by the field it names. */
  lemma ClassifyKeyword(part: string)
    ensures part == "serif" ==> Classify(part) == LetterformPart(Serif)
    ensures part == "sans" ==> Classify(part) == LetterformPart(Sans)
    ensures part == "bold" ==> Classify(part) == ModifierPart(Bold)
    ensures part == "italic" ==> Classify(part) == ModifierPart(Italic)
    ensures part == "small" ==> Classify(part) == SizePart(Small)
    ensures part == "large" ==> Classify(part) == SizePart(Large)
  {
    if part == "serif" {
      KeywordNotNumber(part);
    } else if part == "sans" {
      KeywordNotNumber(part);
      assert part != "serif";
    } else if part == "bold" {
      KeywordNotNumber(part);
      assert part != "serif" && part != "sans";
    } else if part == "italic" {
      KeywordNotNumber(part);
      assert part != "serif" && part != "sans" && part != "bold";
    } else if part == "small" {
      KeywordNotNumber(part);
      assert part != "serif" && part != "sans" && part != "bold" && part != "italic";
    } else if part == "large" {
      KeywordNotNumber(part);
      assert part != "serif" && part != "sans" && part != "bold" && part != "italic" && part != "small";
    }
  }

  /** How one part changes the level. */
  lemma LevelStep(info: TypeInfo, part: string)
    ensures InfoStep(info, Classify(part)).level == if NumberValue(part).Some? then NumberValue(part) else info.level
  {
  }

  /** Without a numeric part there is no level, and with one there is. */
  lemma {:induction false} LevelIffNumber(parts: seq<string>)
    ensures InfoOf(parts).level.None? <==> forall i :: 0 <= i < |parts| ==> NumberValue(parts[i]).None?
  {
    if parts != [] {
      var init := parts[..|parts| - 1];
      var last := parts[|parts| - 1];
      LevelIffNumber(init);
      LevelStep(InfoOf(init), last);
      if NumberValue(last).None? {
        if InfoOf(init).level.None? {
          forall i | 0 <= i < |parts| ensures NumberValue(parts[i]).None? {
            if i < |init| {
              assert init[i] == parts[i];
            }
          }
        } else {
          var j := LevelIsLastNumber(init);
          assert parts[j] == init[j];
        }
      }
    }
  }

  /** The level is the value of the last numeric part. */
  lemma {:induction false} LevelIsLastNumber(parts: seq<string>) returns (i: int)
    requires InfoOf(parts).level.Some?
    ensures 0 <= i < |parts| && NumberValue(parts[i]) == InfoOf(parts).level
    ensures forall j :: i < j < |parts| ==> NumberValue(parts[j]).None?
  {
    var init := parts[..|parts| - 1];
    var last := parts[|parts| - 1];
    LevelStep(InfoOf(init), last);
    if NumberValue(last).Some? {
      i := |parts| - 1;
    } else {
      i := LevelIsLastNumber(init);
      assert init[i] == parts[i];
      forall j | i < j < |parts| ensures NumberValue(parts[j]).None? {
        if j < |parts| - 1 {
          assert init[j] == parts[j];
        }
      }
    }
  }

  /** How one part changes the letterform. */
  lemma LetterformStep(info: TypeInfo, part: string)
    ensures InfoStep(info, Classify(part)).letterform ==
      if part == "serif" then Some(Serif) else if part == "sans" then Some(Sans) else info.letterform
  {
    ClassifyKeyword(part);
  }

  /** How one part changes the modifier. */
  lemma ModifierStep(info: TypeInfo, part: string)
    ensures InfoStep(info, Classify(part)).modifier ==
      if part == "bold" then Some(Bold) else if part == "italic" then Some(Italic) else info.modifier
  {
    ClassifyKeyword(part);
  }

  /** How one part changes the size. */
  lemma SizeStep(info: TypeInfo, part: string)
    ensures InfoStep(info, Classify(part)).size ==
      if part == "small" then Some(Small) else if part == "large" then Some(Large) else info.size
  {
    ClassifyKeyword(part);
  }

  /** The last of `serif`/`sans` sets the letterform; the other fields behave alike. */
  lemma {:induction false} LetterformIsLastKeyword(parts: seq<string>)
    ensures var i := LastIndexIn(parts, {"serif", "sans"});
      InfoOf(parts).letterform == if i < 0 then None else Some(if parts[i] == "serif" then Serif else Sans)
  {
    if parts != [] {
      var init := parts[..|parts| - 1];
      LetterformIsLastKeyword(init);
      LetterformStep(InfoOf(init), parts[|parts| - 1]);
    }
  }

  /** The last of `bold`/`italic` sets the modifier. */
  lemma {:induction false} ModifierIsLastKeyword(parts: seq<string>)
    ensures var i := LastIndexIn(parts, {"bold", "italic"});
      InfoOf(parts).modifier == if i < 0 then None else Some(if parts[i] == "bold" then Bold else Italic)
  {
    if parts != [] {
      var init := parts[..|parts| - 1];
      ModifierIsLastKeyword(init);
      ModifierStep(InfoOf(init), parts[|parts| - 1]);
    }
  }

  /** The last of `small`/`large` sets the size. */
  lemma {:induction false} SizeIsLastKeyword(parts: seq<string>)
    ensures var i := LastIndexIn(parts, {"small", "large"});
      InfoOf(parts).size == if i < 0 then None else Some(if parts[i] == "small" then Small else Large)
  {
    if parts != [] {
      var init := parts[..|parts| - 1];
      SizeIsLastKeyword(init);
      SizeStep(InfoOf(init), parts[|parts| - 1]);
    }
  }

  // ---------------------------------------------------------------------------
  // Pass 3: transformToDefinition
  // ---------------------------------------------------------------------------

  /** A `TypeDefinition`: the record's name, its category's title, and what its name parts say. */
  datatype TypeDefinition = TypeDefinition(name: string, category: string, info: TypeInfo)

  /** One entry of `TypeCategories`. */
  datatype TypeCategory = TypeCategory(category: string, categoryTitle: string, definitions: seq<TypeDefinition>)

  /** The first dash-separated part of a name. */
  function CategoryOf(name: string): string {
    Split(name, '-')[0]
  }

  function DefinitionOf(name: string): TypeDefinition {
    TypeDefinition(name, ToTitleCase(CategoryOf(name)), InfoOf(Split(name, '-')[1..]))
  }

  /** `findIndex` over the categories by category name. */
  function FindCategory(cats: seq<TypeCategory>, c: string): (r: int)
    ensures -1 <= r < |cats|
    ensures r >= 0 ==> cats[r].category == c
    ensures forall j :: 0 <= j < |cats| && (r == -1 || j < r) ==> cats[j].category != c
  {
    if cats == [] then -1
    else if cats[0].category == c then 0
    else
      var r := FindCategory(cats[1..], c);
      if r == -1 then -1 else r + 1
  }

  /** One iteration: the definition is appended to its category, which is created at the end when new. */
  function AddDefinition(cats: seq<TypeCategory>, name: string): seq<TypeCategory> {
    var c := CategoryOf(name);
    var i := FindCategory(cats, c);
    if i == -1 then cats + [TypeCategory(c, ToTitleCase(c), [DefinitionOf(name)])]
    else cats[i := cats[i].(definitions := cats[i].definitions + [DefinitionOf(name)])]
  }

  /** The categories built from the record names, in order. */
  function Definitions(names: seq<string>): (r: seq<TypeCategory>)
    ensures |r| <= |names|
    ensures names != [] ==> |r| >= 1
  {
    if names == [] then [] else AddDefinition(Definitions(names[..|names| - 1]), names[|names| - 1])
  }

  /** `transformToDefinition` over records that all have a name, proved equal to `Definitions`. */
  method TransformToDefinition(objs: seq<TypeObject>) returns (result: seq<TypeCategory>)
    requires AllNamed(objs)
    ensures result == Definitions(Names(objs))
  {
    result := [];
    for i := 0 to |objs|
      invariant result == Definitions(Names(objs[..i]))
    {
      assert objs[..i + 1][..i] == objs[..i];
      assert Names(objs[..i + 1]) == Names(objs[..i]) + [objs[i]["name"].value];
      result := AddObject(result, objs[i]["name"].value);
    }
    assert objs[..|objs|] == objs;
  }

  /** The body of the `transformToDefinition` loop for the record named `name`. */
  method AddObject(categories: seq<TypeCategory>, name: string) returns (result: seq<TypeCategory>)
    ensures result == AddDefinition(categories, name)
  {
    result := categories;
    var parts := Split(name, '-');
    var category := parts[0];
    var categoryIndex := FindCategory(result, category);
    if categoryIndex == -1 {
      result := result + [TypeCategory(category, ToTitleCase(category), [])];
      categoryIndex := |result| - 1;
    }
    var info := IdentifyTypeInfo(parts[1..]);
    var definition := TypeDefinition(name, ToTitleCase(category), info);
    assert definition == DefinitionOf(name);
    result := result[categoryIndex := result[categoryIndex].(definitions := result[categoryIndex].definitions + [definition])];
    if FindCategory(categories, category) == -1 {
      assert [] + [definition] == [definition];
      assert result == categories + [TypeCategory(category, ToTitleCase(category), [definition])];
    }
  }

  /** The distinct categories of the names, in order of first appearance. */
  function DistinctCategories(names: seq<string>): (r: seq<string>)
    ensures forall c :: c in r <==> exists j :: 0 <= j < |names| && CategoryOf(names[j]) == c
    ensures forall a, b :: 0 <= a < b < |r| ==> r[a] != r[b]
  {
    if names == [] then []
    else
      var init := names[..|names| - 1];
      var c := CategoryOf(names[|names| - 1]);
      var d := DistinctCategories(init);
      assert forall j :: 0 <= j < |init| ==> init[j] == names[j];
      if c in d then d else d + [c]
  }

  /** The definitions of the names in category `c`, in input order. */
  function DefinitionsIn(names: seq<string>, c: string): seq<TypeDefinition> {
    if names == [] then []
    else
      var last := names[|names| - 1];
      DefinitionsIn(names[..|names| - 1], c) + (if CategoryOf(last) == c then [DefinitionOf(last)] else [])
  }

  lemma {:induction false} DefinitionsInAbsent(names: seq<string>, c: string)
    requires forall j :: 0 <= j < |names| ==> CategoryOf(names[j]) != c
    ensures DefinitionsIn(names, c) == []
  {
    if names != [] {
      DefinitionsInAbsent(names[..|names| - 1], c);
    }
  }

  /**
   * `cats` holds one category per distinct first part of `names`, in order of
   * first appearance, titled with `toTitleCase`; under each, exactly the
   * definitions of the names in it, in input order.
   */
  predicate Grouped(names: seq<string>, cats: seq<TypeCategory>) {
    && |cats| == |DistinctCategories(names)|
    && forall k :: 0 <= k < |cats| ==>
      && cats[k].category == DistinctCategories(names)[k]
      && cats[k].categoryTitle == ToTitleCase(cats[k].category)
      && cats[k].definitions == DefinitionsIn(names, cats[k].category)
  }

  /** The categories `transformToDefinition` builds are grouped as described by `Grouped`. */
  lemma {:induction false} DefinitionsGrouped(names: seq<string>)
    ensures Grouped(names, Definitions(names))
  {
    if names != [] {
      var init := names[..|names| - 1];
      var name := names[|names| - 1];
      DefinitionsGrouped(init);
      assert names == init + [name];
      GroupedStep(init, name);
    }
  }

  /** Adding one record keeps the categories grouped. */
  lemma GroupedStep(init: seq<string>, name: string)
    requires Grouped(init, Definitions(init))
    ensures Grouped(init + [name], AddDefinition(Definitions(init), name))
  {
    var names := init + [name];
    assert names[..|names| - 1] == init;
    var cats := Definitions(init);
    var c := CategoryOf(name);
    if FindCategory(cats, c) == -1 {
      GroupedNew(init, name);
    } else {
      GroupedExisting(init, name);
    }
  }

  /** A record with a new category opens a category at the end. */
  lemma GroupedNew(init: seq<string>, name: string)
    requires Grouped(init, Definitions(init))
    requires FindCategory(Definitions(init), CategoryOf(name)) == -1
    ensures Grouped(init + [name], AddDefinition(Definitions(init), name))
  {
    var names := init + [name];
    assert names[..|names| - 1] == init;
    var cats := Definitions(init);
    var c := CategoryOf(name);
    var d := DistinctCategories(init);
    CategoryAbsent(init, c);
    assert DistinctCategories(names) == d + [c];
    DefinitionsInAbsent(init, c);
    var cats' := AddDefinition(cats, name);
    forall k | 0 <= k < |cats'|
      ensures cats'[k].definitions == DefinitionsIn(names, cats'[k].category)
    {
      if k < |cats| {
        assert cats'[k] == cats[k];
      }
    }
  }

  /** A category the built categories lack is the category of no name seen so far. */
  lemma CategoryAbsent(names: seq<string>, c: string)
    requires Grouped(names, Definitions(names))
    requires FindCategory(Definitions(names), c) == -1
    ensures c !in DistinctCategories(names)
    ensures forall j :: 0 <= j < |names| ==> CategoryOf(names[j]) != c
  {
    var cats := Definitions(names);
    var d := DistinctCategories(names);
    forall j | 0 <= j < |d| ensures d[j] != c {
      assert cats[j].category == d[j];
    }
  }

  /** A record of a known category joins the end of that category. */
  lemma GroupedExisting(init: seq<string>, name: string)
    requires Grouped(init, Definitions(init))
    requires FindCategory(Definitions(init), CategoryOf(name)) != -1
    ensures Grouped(init + [name], AddDefinition(Definitions(init), name))
  {
    var names := init + [name];
    assert names[..|names| - 1] == init;
    var cats := Definitions(init);
    var c := CategoryOf(name);
    var i := FindCategory(cats, c);
    var d := DistinctCategories(init);
    assert d[i] == c;
    assert DistinctCategories(names) == d;
    var cats' := AddDefinition(cats, name);
    forall k | 0 <= k < |cats'|
      ensures cats'[k].definitions == DefinitionsIn(names, cats'[k].category)
    {
      if k != i {
        assert cats'[k] == cats[k];
        assert cats[k].category == d[k] != d[i];
      }
    }
  }

  /** The whole importer: the stylesheet text to the type categories. */
  method ImportTypography(content: string) returns (categories: seq<TypeCategory>)
    ensures categories == Definitions(Names(Objects(CustomFormat(content))))
  {
    var customFormat := ToCustomFormat(content);
    var objects := TransformToObjects(customFormat);
    categories := TransformToDefinition(objects);
  }
}
