/**
 * The text the diary editor writes: the metadata paragraph of the exported PDF,
 * the plain-text backup saved next to the database row, and the file names.
 */
module DiaryText {
  import opened Wrappers
  import opened DiaryTags

  const DatePrefix: string := "📅 日期： "
  const MoodPrefix: string := "😊 心情： "
  const WeatherPrefix: string := "🌦 天氣： "

  /** What the PDF shows for an unset tag. */
  const Unset: string := "(未選)"

  /** The PDF's title line. */
  const PdfTitle: string := "📔 我的日記本"

  /** The directory the text backups go to. */
  const BackupDirectory: string := "diary"

  /** A tag as the PDF shows it. */
  function Shown(tag: Option<string>): (s: string)
    ensures tag.None? ==> s == Unset
    ensures tag.Some? ==> s == tag.value
  {
    match tag
    case None => Unset
    case Some(v) => v
  }

  /** The PDF's body paragraph: date, mood and weather lines, a blank line, then the content. */
  function MetadataParagraph(date: string, mood: Option<string>, weather: Option<string>, content: string): (p: string)
    ensures DatePrefix + date + "\n" <= p
    ensures |p| >= |content| + 2 && p[|p| - |content| - 2..] == "\n\n" + content
  {
    DatePrefix + date + "\n" + MoodPrefix + Shown(mood) + "\n" + WeatherPrefix + Shown(weather) + "\n\n" + content
  }

  /** The backup's text: date, mood and weather, each ended by a line break, then the content with none after it. */
  function BackupText(date: string, mood: Option<string>, weather: Option<string>, content: string): (t: string)
    ensures date + "\n" <= t
    ensures |t| >= |content| + 1 && t[|t| - |content| - 1..] == "\n" + content
  {
    date + "\n" + JavaString(mood) + "\n" + JavaString(weather) + "\n" + content
  }

  function BackupFileName(date: string): (name: string)
    ensures |name| == |date| + 10 && name[..6] == "Diary_" && name[6..|name| - 4] == date && name[|name| - 4..] == ".txt"
  {
    "Diary_" + date + ".txt"
  }

  /** The name the export dialog proposes. */
  function PdfFileName(date: string): (name: string)
    ensures |name| == |date| + 10 && name[..6] == "Diary_" && name[6..|name| - 4] == date && name[|name| - 4..] == ".pdf"
  {
    "Diary_" + date + ".pdf"
  }

  // ---------------------------------------------------------------------------
  // Reading the text back

  /** The text up to the first line break and the text after it; `None` without a line break. */
  function SplitLine(s: string): (r: Option<(string, string)>)
    ensures r.Some? ==> s == r.value.0 + "\n" + r.value.1 && '\n' !in r.value.0
    ensures r.None? ==> '\n' !in s
  {
    if s == [] then None
    else if s[0] == '\n' then Some(([], s[1..]))
    else match SplitLine(s[1..])
      case None => None
      case Some((line, rest)) => Some(([s[0]] + line, rest))
  }

  /** `s` without `prefix`, if it starts with it. */
  function DropPrefix(prefix: string, s: string): (r: Option<string>)
    ensures r.Some? ==> s == prefix + r.value
    ensures prefix <= s ==> r == Some(s[|prefix|..])
  {
    if prefix <= s then Some(s[|prefix|..]) else None
  }

  datatype Fields = Fields(date: string, mood: string, weather: string, content: string)

  /** The first three lines of `text` and what follows them. */
  function ThreeLines(text: string): Option<(string, string, string, string)> {
    match SplitLine(text)
    case None => None
    case Some((l1, r1)) =>
      match SplitLine(r1)
      case None => None
      case Some((l2, r2)) =>
        match SplitLine(r2)
        case None => None
        case Some((l3, rest)) => Some((l1, l2, l3, rest))
  }

  /** Reads the date, mood and weather lines and the content back from a metadata paragraph. */
  function ParseMetadata(text: string): Option<Fields> {
    match ThreeLines(text)
    case None => None
    case Some((l1, l2, l3, rest)) =>
      match (DropPrefix(DatePrefix, l1), DropPrefix(MoodPrefix, l2), DropPrefix(WeatherPrefix, l3), DropPrefix("\n", rest))
      case (Some(date), Some(mood), Some(weather), Some(content)) => Some(Fields(date, mood, weather, content))
      case _ => None
  }

  /** Reads the four fields back from a backup text. */
  function ParseBackup(text: string): Option<Fields> {
    match ThreeLines(text)
    case None => None
    case Some((date, mood, weather, content)) => Some(Fields(date, mood, weather, content))
  }

  lemma {:induction false} SplitLineOfLine(line: string, rest: string)
    requires '\n' !in line
    ensures SplitLine(line + "\n" + rest) == Some((line, rest))
    decreases |line|
  {
    var s := line + "\n" + rest;
    if line == [] {
      assert s[0] == '\n' && s[1..] == rest;
    } else {
      assert s[0] == line[0] && s[1..] == line[1..] + "\n" + rest;
      SplitLineOfLine(line[1..], rest);
      assert [line[0]] + line[1..] == line;
    }
  }

  lemma ThreeLinesOf(l1: string, l2: string, l3: string, rest: string)
    requires '\n' !in l1 && '\n' !in l2 && '\n' !in l3
    ensures ThreeLines(l1 + "\n" + (l2 + "\n" + (l3 + "\n" + rest))) == Some((l1, l2, l3, rest))
  {
    SplitLineOfLine(l1, l2 + "\n" + (l3 + "\n" + rest));
    SplitLineOfLine(l2, l3 + "\n" + rest);
    SplitLineOfLine(l3, rest);
  }

  lemma ParagraphLines(p1: string, v1: string, p2: string, v2: string, p3: string, v3: string, content: string)
    ensures p1 + v1 + "\n" + p2 + v2 + "\n" + p3 + v3 + "\n\n" + content
         == (p1 + v1) + "\n" + ((p2 + v2) + "\n" + ((p3 + v3) + "\n" + ("\n" + content)))
  {
    assert "\n\n" + content == "\n" + ("\n" + content);
  }

  lemma BackupLines(date: string, m: string, w: string, content: string)
    ensures date + "\n" + m + "\n" + w + "\n" + content == date + "\n" + (m + "\n" + (w + "\n" + content))
  {
  }

  lemma NoBreakInJoin(a: string, b: string)
    requires '\n' !in a && '\n' !in b
    ensures '\n' !in a + b
  {
  }

  /**
   * The metadata paragraph reads back: when date and shown tags are single lines,
   * parsing it gives the date, the shown mood and weather, and the content verbatim.
   */
  lemma MetadataRoundTrip(date: string, mood: Option<string>, weather: Option<string>, content: string)
    requires '\n' !in date && '\n' !in Shown(mood) && '\n' !in Shown(weather)
    ensures ParseMetadata(MetadataParagraph(date, mood, weather, content)) == Some(Fields(date, Shown(mood), Shown(weather), content))
  {
    var l1, l2, l3 := DatePrefix + date, MoodPrefix + Shown(mood), WeatherPrefix + Shown(weather);
    var rest := "\n" + content;
    ParagraphLines(DatePrefix, date, MoodPrefix, Shown(mood), WeatherPrefix, Shown(weather), content);
    NoBreakInJoin(DatePrefix, date);
    NoBreakInJoin(MoodPrefix, Shown(mood));
    NoBreakInJoin(WeatherPrefix, Shown(weather));
    ThreeLinesOf(l1, l2, l3, rest);
    assert DropPrefix(DatePrefix, l1) == Some(date);
    assert DropPrefix(MoodPrefix, l2) == Some(Shown(mood));
    assert DropPrefix(WeatherPrefix, l3) == Some(Shown(weather));
    assert DropPrefix("\n", rest) == Some(content);
  }

  /** The backup reads back: date, mood and weather as `+` printed them, and the content verbatim. */
  lemma BackupRoundTrip(date: string, mood: Option<string>, weather: Option<string>, content: string)
    requires '\n' !in date && '\n' !in JavaString(mood) && '\n' !in JavaString(weather)
    ensures ParseBackup(BackupText(date, mood, weather, content)) == Some(Fields(date, JavaString(mood), JavaString(weather), content))
  {
    var m, w := JavaString(mood), JavaString(weather);
    BackupLines(date, m, w, content);
    ThreeLinesOf(date, m, w, content);
  }

  /** The editor's date and tags are single lines, so both texts read back for every content. */
  lemma EditorTextsReadBack(date: string, mood: Option<string>, weather: Option<string>, content: string)
    requires '\n' !in date && IsMoodValue(mood) && IsWeatherValue(weather)
    ensures ParseMetadata(MetadataParagraph(date, mood, weather, content)) == Some(Fields(date, Shown(mood), Shown(weather), content))
    ensures ParseBackup(BackupText(date, mood, weather, content)) == Some(Fields(date, JavaString(mood), JavaString(weather), content))
  {
    LabelsArePlain();
    assert mood.Some? ==> mood.value in Moods + Weathers;
    assert weather.Some? ==> weather.value in Moods + Weathers;
    assert '\n' !in Unset && '\n' !in "null";
    MetadataRoundTrip(date, mood, weather, content);
    BackupRoundTrip(date, mood, weather, content);
  }

  /** An unset tag and a tag reading "(未選)" print the same paragraph; in the backup the alias is "null". */
  lemma UnsetAliases(date: string, content: string, weather: Option<string>)
    ensures MetadataParagraph(date, None, weather, content) == MetadataParagraph(date, Some(Unset), weather, content)
    ensures BackupText(date, None, weather, content) == BackupText(date, Some("null"), weather, content)
  {
  }

  /** One backup file per date. */
  lemma BackupNamePerDate(d1: string, d2: string)
    ensures BackupFileName(d1) == BackupFileName(d2) <==> d1 == d2
  {
    var b1, b2 := BackupFileName(d1), BackupFileName(d2);
    if b1 == b2 {
      assert d1 == b1[6..|b1| - 4] == b2[6..|b2| - 4] == d2;
    }
  }

  /** One proposed PDF name per date, and no PDF name is ever a backup's name. */
  lemma PdfNamePerDate(d1: string, d2: string)
    ensures PdfFileName(d1) == PdfFileName(d2) <==> d1 == d2
    ensures BackupFileName(d1) != PdfFileName(d2)
  {
    var p1, p2 := PdfFileName(d1), PdfFileName(d2);
    if p1 == p2 {
      assert d1 == p1[6..|p1| - 4] == p2[6..|p2| - 4] == d2;
    }
    var b1 := BackupFileName(d1);
    assert b1[|b1| - 1] == 't' && p2[|p2| - 1] == 'f';
  }
}
