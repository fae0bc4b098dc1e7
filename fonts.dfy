/**
 * The bundled font table and the preload helper: `fonts` lists six WOFF2
 * files with their metadata, `fontUrls` their URLs, and `getFontPreloads`
 * the `<link rel="preload">` properties for some or all of them.
 *
 * The URL of each font is whatever the bundler resolves its imported file
 * to; it is the parameter `asset`, applied to the imported path.
 */
module FontPreloads {
  import opened Wrappers

  datatype FontStyle = Normal | Italic

  datatype FontMetadata = FontMetadata(url: string, family: string, weight: nat, style: FontStyle, filename: string)

  /** `FontKey`: the keys of the table. */
  datatype FontKey =
    | HkGroteskBold
    | HkGroteskMedium
    | HkGroteskMediumItalic
    | MerriweatherBold
    | MerriweatherItalic
    | MerriweatherRegular

  /** The keys in the table's declaration order, which is the order of `Object.values(fonts)`. */
  const FONT_KEYS: seq<FontKey> := [
    HkGroteskBold, HkGroteskMedium, HkGroteskMediumItalic,
    MerriweatherBold, MerriweatherItalic, MerriweatherRegular]

  /** The name of each font's file; the font is imported from `./<filename>.woff2`. */
  function FileName(key: FontKey): string {
    match key
    case HkGroteskBold => "HKGrotesk-Bold"
    case HkGroteskMedium => "HKGrotesk-Medium"
    case HkGroteskMediumItalic => "HKGrotesk-MediumItalic"
    case MerriweatherBold => "Merriweather-Bold"
    case MerriweatherItalic => "Merriweather-Italic"
    case MerriweatherRegular => "Merriweather-Regular"
  }

  function ImportPath(key: FontKey): string {
    "./" + FileName(key) + ".woff2"
  }

  /** `fonts[key]`: the URL of the imported file, then the family, weight, style and file name. */
  function Font(key: FontKey, asset: string -> string): (f: FontMetadata)
    ensures f.url == asset(ImportPath(key)) && f.filename == FileName(key)
  {
    var url := asset(ImportPath(key));
    var filename := FileName(key);
    match key
    case HkGroteskBold => FontMetadata(url, "HK Grotesk", 700, Normal, filename)
    case HkGroteskMedium => FontMetadata(url, "HK Grotesk", 500, Normal, filename)
    case HkGroteskMediumItalic => FontMetadata(url, "HK Grotesk", 500, Italic, filename)
    case MerriweatherBold => FontMetadata(url, "Merriweather", 700, Normal, filename)
    case MerriweatherItalic => FontMetadata(url, "Merriweather", 400, Italic, filename)
    case MerriweatherRegular => FontMetadata(url, "Merriweather", 400, Normal, filename)
  }

  /** Every key is in the table exactly once. */
  lemma FontKeysComplete(key: FontKey)
    ensures |FONT_KEYS| == 6
    ensures exists i :: 0 <= i < |FONT_KEYS| && FONT_KEYS[i] == key
    ensures forall i, j :: 0 <= i < j < |FONT_KEYS| ==> FONT_KEYS[i] != FONT_KEYS[j]
  {
    match key
    case HkGroteskBold => assert FONT_KEYS[0] == key;
    case HkGroteskMedium => assert FONT_KEYS[1] == key;
    case HkGroteskMediumItalic => assert FONT_KEYS[2] == key;
    case MerriweatherBold => assert FONT_KEYS[3] == key;
    case MerriweatherItalic => assert FONT_KEYS[4] == key;
    case MerriweatherRegular => assert FONT_KEYS[5] == key;
  }

  /** `fontUrls`: the URLs in declaration order. */
  function FontUrls(asset: string -> string): (r: seq<string>)
    ensures |r| == |FONT_KEYS|
    ensures forall i :: 0 <= i < |r| ==> r[i] == Font(FONT_KEYS[i], asset).url
  {
    seq(|FONT_KEYS|, i requires 0 <= i < |FONT_KEYS| => Font(FONT_KEYS[i], asset).url)
  }

  /** `FontPreloadProps`: `rel`, `href`, `as`, `type` and `crossOrigin`. */
  datatype FontPreloadProps = FontPreloadProps(rel: string, href: string, destination: string, mimeType: string, crossOrigin: string)

  /** The constant part of every preload entry. */
  predicate IsFontPreload(p: FontPreloadProps) {
    p.rel == "preload" && p.destination == "font" && p.mimeType == "font/woff2" && p.crossOrigin == "anonymous"
  }

  /** The entry for one font. */
  function Preload(font: FontMetadata): (r: FontPreloadProps)
    ensures IsFontPreload(r) && r.href == font.url
  {
    FontPreloadProps("preload", font.url, "font", "font/woff2", "anonymous")
  }

  /** `fontKeys.map((key) => fonts[key])`, or `Object.values(fonts)` when no keys are passed. */
  function FontsToPreload(fontKeys: Option<seq<FontKey>>, asset: string -> string): seq<FontMetadata> {
    var keys := if fontKeys.Some? then fontKeys.value else FONT_KEYS;
    seq(|keys|, i requires 0 <= i < |keys| => Font(keys[i], asset))
  }

  /**
   * `getFontPreloads(fontKeys?)`: with keys, one entry per key in the order
   * given, duplicates included, each pointing at that key's URL (an empty
   * array of keys gives no entry); without keys, one entry per font in
   * declaration order. Every entry is a font preload.
   */
  function GetFontPreloads(fontKeys: Option<seq<FontKey>>, asset: string -> string): (r: seq<FontPreloadProps>)
    ensures fontKeys.Some? ==> |r| == |fontKeys.value|
    ensures fontKeys.Some? ==> forall i :: 0 <= i < |r| ==> r[i].href == Font(fontKeys.value[i], asset).url
    ensures fontKeys.None? ==> |r| == 6
    ensures fontKeys.None? ==> forall i :: 0 <= i < |r| ==> r[i].href == FontUrls(asset)[i]
    ensures forall i :: 0 <= i < |r| ==> IsFontPreload(r[i])
  {
    var fonts := FontsToPreload(fontKeys, asset);
    seq(|fonts|, i requires 0 <= i < |fonts| => Preload(fonts[i]))
  }

  /** Preloading without keys is preloading every key of the table. */
  lemma PreloadsForAll(asset: string -> string)
    ensures GetFontPreloads(None, asset) == GetFontPreloads(Some(FONT_KEYS), asset)
  {
  }

  /** Asking for two lists of keys at once is asking for each in turn. */
  lemma PreloadsAppend(a: seq<FontKey>, b: seq<FontKey>, asset: string -> string)
    ensures GetFontPreloads(Some(a + b), asset) == GetFontPreloads(Some(a), asset) + GetFontPreloads(Some(b), asset)
  {
    var r := GetFontPreloads(Some(a + b), asset);
    var s := GetFontPreloads(Some(a), asset) + GetFontPreloads(Some(b), asset);
    assert |r| == |s|;
    forall i | 0 <= i < |r| ensures r[i] == s[i] {
      if i < |a| {
        assert (a + b)[i] == a[i];
      } else {
        assert (a + b)[i] == b[i - |a|];
      }
    }
  }
}
