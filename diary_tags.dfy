/**
 * The mood and weather tags the diary editor offers, and how an unset tag (a
 * `null` combo-box value) prints when Java concatenates it into a string.
 */
module DiaryTags {
  import opened Wrappers

  const Great: string := "😊 很棒"
  const Okay: string := "🙂 普通"
  const Super: string := "😀 超好"
  const Sad: string := "😕 難過"
  const Exploded: string := "🤯 爆炸了"

  const Sunny: string := "☀️ 晴朗"
  const Cloudy: string := "⛅ 多雲"
  const Rainy: string := "🌧 下雨"
  const Stormy: string := "⛈ 雷雨"
  const Snowy: string := "❄️ 下雪"

  /** The mood choices, in the order they are listed. */
  const Moods: seq<string> := [Great, Okay, Super, Sad, Exploded]

  /** The weather choices, in the order they are listed. */
  const Weathers: seq<string> := [Sunny, Cloudy, Rainy, Stormy, Snowy]

  /** A tag as the editor may hold it: unset, or one of the offered labels. */
  predicate IsMoodValue(tag: Option<string>) {
    tag.None? || tag.value in Moods
  }

  predicate IsWeatherValue(tag: Option<string>) {
    tag.None? || tag.value in Weathers
  }

  /** Java's string conversion in `+`: a `null` reference prints as "null". */
  function JavaString(tag: Option<string>): (s: string)
    ensures tag.None? ==> s == "null"
    ensures tag.Some? ==> s == tag.value
  {
    match tag
    case None => "null"
    case Some(v) => v
  }

  /** No offered label contains '|' or a line break, and the labels of each list differ. */
  lemma LabelsArePlain()
    ensures forall l :: l in Moods + Weathers ==> '|' !in l && '\n' !in l && l != "null"
    ensures forall i, j :: 0 <= i < j < |Moods| ==> Moods[i] != Moods[j]
    ensures forall i, j :: 0 <= i < j < |Weathers| ==> Weathers[i] != Weathers[j]
  {
  }
}
