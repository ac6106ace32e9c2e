/**
 * The two background colours of a diary entry: the editor's on-screen colour, a
 * CSS colour chosen by a first-match chain of rules, and the exported PDF's page
 * colour, chosen by a `switch` on the string `mood + "|" + weather`.
 */
module DiaryColours {
  import opened Wrappers
  import opened DiaryTags

  // ---------------------------------------------------------------------------
  // On screen

  datatype WeatherPattern = AnyWeather | Exactly(tag: string)

  /** "If the mood is `mood` (and the weather matches `weather`), use `colour`." */
  datatype Rule = Rule(mood: string, weather: WeatherPattern, colour: string)

  /** A rule matches only a set value: `"label".equals(null)` is false. */
  predicate Matches(r: Rule, mood: Option<string>, weather: Option<string>) {
    mood == Some(r.mood) && (r.weather.AnyWeather? || weather == Some(r.weather.tag))
  }

  /** The colour of the first rule that matches, or `default` when none does. */
  function FirstMatch(rules: seq<Rule>, mood: Option<string>, weather: Option<string>, default: string): (c: string)
    ensures (forall i :: 0 <= i < |rules| ==> !Matches(rules[i], mood, weather)) ==> c == default
    ensures forall i :: (0 <= i < |rules| && Matches(rules[i], mood, weather)
                         && (forall j :: 0 <= j < i ==> !Matches(rules[j], mood, weather))) ==> c == rules[i].colour
    ensures c == default || exists i :: 0 <= i < |rules| && Matches(rules[i], mood, weather) && c == rules[i].colour
    decreases |rules|
  {
    if rules == [] then default
    else if Matches(rules[0], mood, weather) then rules[0].colour
    else FirstMatch(rules[1..], mood, weather, default)
  }

  /** The on-screen rules, in the order they are tried. */
  const ScreenRules: seq<Rule> := [
    Rule(Great, Exactly(Sunny), "#FFFDE7"),
    Rule(Okay, Exactly(Cloudy), "#E8F0FE"),
    Rule(Super, AnyWeather, "#E0F7FA"),
    Rule(Sad, AnyWeather, "#F3E5F5"),
    Rule(Exploded, AnyWeather, "#F8D7DA")
  ]

  const ScreenDefault: string := "#FFF"

  /** The editor's background colour for the current tags. */
  function ScreenColour(mood: Option<string>, weather: Option<string>): (c: string)
    ensures c in {"#FFFDE7", "#E8F0FE", "#E0F7FA", "#F3E5F5", "#F8D7DA", ScreenDefault}
    ensures mood.None? ==> c == ScreenDefault
  {
    FirstMatch(ScreenRules, mood, weather, ScreenDefault)
  }

  /** The chain of tests the editor runs, reassigning `c` from its default. */
  method ChooseScreenColour(mood: Option<string>, weather: Option<string>) returns (c: string)
    ensures c == ScreenColour(mood, weather)
  {
    c := ScreenDefault;
    if mood == Some(Great) && weather == Some(Sunny) {
      c := "#FFFDE7";
    } else if mood == Some(Okay) && weather == Some(Cloudy) {
      c := "#E8F0FE";
    } else if mood == Some(Super) {
      c := "#E0F7FA";
    } else if mood == Some(Sad) {
      c := "#F3E5F5";
    } else if mood == Some(Exploded) {
      c := "#F8D7DA";
    }
    ScreenRulesInOrder(mood, weather);
  }

  /** Trying the rule table in order is the chain of tests above. */
  lemma ScreenRulesInOrder(mood: Option<string>, weather: Option<string>)
    ensures ScreenColour(mood, weather) ==
      if mood == Some(Great) && weather == Some(Sunny) then "#FFFDE7"
      else if mood == Some(Okay) && weather == Some(Cloudy) then "#E8F0FE"
      else if mood == Some(Super) then "#E0F7FA"
      else if mood == Some(Sad) then "#F3E5F5"
      else if mood == Some(Exploded) then "#F8D7DA"
      else ScreenDefault
  {
    var r := ScreenRules;
    var d := ScreenDefault;
    assert r[4..][1..] == [];
    assert r[3..][1..] == r[4..] && r[2..][1..] == r[3..] && r[1..][1..] == r[2..] && r[0..] == r;
    FirstMatchStep(r[4..], mood, weather, d);
    FirstMatchStep(r[3..], mood, weather, d);
    FirstMatchStep(r[2..], mood, weather, d);
    FirstMatchStep(r[1..], mood, weather, d);
    FirstMatchStep(r[0..], mood, weather, d);
  }

  /** One step of the first-match search. */
  lemma FirstMatchStep(rules: seq<Rule>, mood: Option<string>, weather: Option<string>, default: string)
    requires |rules| > 0
    ensures FirstMatch(rules, mood, weather, default)
         == if Matches(rules[0], mood, weather) then rules[0].colour else FirstMatch(rules[1..], mood, weather, default)
  {
  }

  /** Each on-screen colour, exactly when it is chosen. */
  lemma ScreenColourCases(mood: Option<string>, weather: Option<string>)
    ensures var c := ScreenColour(mood, weather);
      && (c == "#FFFDE7" <==> mood == Some(Great) && weather == Some(Sunny))
      && (c == "#E8F0FE" <==> mood == Some(Okay) && weather == Some(Cloudy))
      && (c == "#E0F7FA" <==> mood == Some(Super))
      && (c == "#F3E5F5" <==> mood == Some(Sad))
      && (c == "#F8D7DA" <==> mood == Some(Exploded))
      && (c == "#FFF" <==> (!(mood == Some(Great) && weather == Some(Sunny)) && !(mood == Some(Okay) && weather == Some(Cloudy))
                           && mood != Some(Super) && mood != Some(Sad) && mood != Some(Exploded)))
  {
    ScreenRulesInOrder(mood, weather);
  }

  /** For the moods 超好, 難過 and 爆炸了 the weather makes no difference on screen. */
  lemma MoodAloneDecides(mood: string, w1: Option<string>, w2: Option<string>)
    requires mood == Super || mood == Sad || mood == Exploded
    ensures ScreenColour(Some(mood), w1) == ScreenColour(Some(mood), w2)
  {
    ScreenColourCases(Some(mood), w1);
    ScreenColourCases(Some(mood), w2);
  }

  /** An unset mood or weather never matches the two pair rules; an unset mood gives the default. */
  lemma UnsetTagsOnScreen(mood: Option<string>, weather: Option<string>)
    requires mood.None? || weather.None?
    ensures ScreenColour(mood, weather) != "#FFFDE7" && ScreenColour(mood, weather) != "#E8F0FE"
    ensures mood.None? ==> ScreenColour(mood, weather) == ScreenDefault
  {
    ScreenColourCases(mood, weather);
  }

  // ---------------------------------------------------------------------------
  // In the PDF

  datatype Rgb = Rgb(red: int, green: int, blue: int)

  const White: Rgb := Rgb(255, 255, 255)

  /** The `switch` key: both tags converted as `+` converts them, joined by '|'. */
  function PdfKey(mood: Option<string>, weather: Option<string>): (k: string)
    ensures |k| == |JavaString(mood)| + 1 + |JavaString(weather)|
    ensures k[..|JavaString(mood)|] == JavaString(mood) && k[|JavaString(mood)|] == '|'
    ensures k[|JavaString(mood)| + 1..] == JavaString(weather)
  {
    JavaString(mood) + "|" + JavaString(weather)
  }

  /** The `case` labels of the switch, with their colours. */
  const PdfCases: seq<(string, Rgb)> := [
    ("😊 很棒|☀️ 晴朗", Rgb(255, 248, 225)),
    ("🙂 普通|⛅ 多雲", Rgb(232, 240, 254)),
    ("😀 超好|☀️ 晴朗", Rgb(255, 253, 231)),
    ("😕 難過|🌧 下雨", Rgb(236, 240, 241)),
    ("🤯 爆炸了|⛈ 雷雨", Rgb(255, 235, 238))
  ]

  /** A string `switch`: the colour of the first case label equal to `key`, else `default`. */
  function Switch(cases: seq<(string, Rgb)>, key: string, default: Rgb): (c: Rgb)
    ensures (forall i :: 0 <= i < |cases| ==> cases[i].0 != key) ==> c == default
    ensures forall i :: (0 <= i < |cases| && cases[i].0 == key
                         && (forall j :: 0 <= j < i ==> cases[j].0 != key)) ==> c == cases[i].1
    ensures c == default || exists i :: 0 <= i < |cases| && cases[i].0 == key && c == cases[i].1
    decreases |cases|
  {
    if cases == [] then default
    else if cases[0].0 == key then cases[0].1
    else Switch(cases[1..], key, default)
  }

  /** The PDF page colour for the current tags. */
  function PdfColour(mood: Option<string>, weather: Option<string>): (c: Rgb)
    ensures c in {Rgb(255, 248, 225), Rgb(232, 240, 254), Rgb(255, 253, 231), Rgb(236, 240, 241), Rgb(255, 235, 238), White}
  {
    Switch(PdfCases, PdfKey(mood, weather), White)
  }

  /** The same table read as (mood, weather) pairs. */
  const PdfPairs: seq<(string, string, Rgb)> := [
    (Great, Sunny, Rgb(255, 248, 225)),
    (Okay, Cloudy, Rgb(232, 240, 254)),
    (Super, Sunny, Rgb(255, 253, 231)),
    (Sad, Rainy, Rgb(236, 240, 241)),
    (Exploded, Stormy, Rgb(255, 235, 238))
  ]

  /** Look up a pair of set tags; any pair not in the table, or with an unset tag, is white. */
  function PairColour(pairs: seq<(string, string, Rgb)>, mood: Option<string>, weather: Option<string>): Rgb
    decreases |pairs|
  {
    if pairs == [] then White
    else if mood == Some(pairs[0].0) && weather == Some(pairs[0].1) then pairs[0].2
    else PairColour(pairs[1..], mood, weather)
  }

  /** If `x + "|" + y` equals `a + "|" + b` and neither `a` nor `b` holds '|', then `x == a` and `y == b`. */
  lemma SplitAtBar(x: string, y: string, a: string, b: string)
    requires '|' !in a && '|' !in b
    requires x + "|" + y == a + "|" + b
    ensures x == a && y == b
  {
    var k := x + "|" + y;
    assert k[|x|] == '|';
    assert k[|a|] == '|';
    assert x == k[..|x|] == a;
    assert y == k[|x| + 1..] == b;
  }

  /** Each case label is the key of exactly its (mood, weather) pair. */
  lemma CaseLabelsArePairKeys()
    ensures |PdfCases| == |PdfPairs|
    ensures forall i :: 0 <= i < |PdfCases| ==>
      PdfCases[i].0 == PdfPairs[i].0 + "|" + PdfPairs[i].1 && PdfCases[i].1 == PdfPairs[i].2
      && '|' !in PdfPairs[i].0 && '|' !in PdfPairs[i].1
  {
    forall i | 0 <= i < |PdfCases|
      ensures PdfCases[i].0 == PdfPairs[i].0 + "|" + PdfPairs[i].1 && PdfCases[i].1 == PdfPairs[i].2
      ensures '|' !in PdfPairs[i].0 && '|' !in PdfPairs[i].1
    {
      if i == 0 {
      } else if i == 1 {
      } else if i == 2 {
      } else if i == 3 {
      } else {
      }
    }
  }

  lemma {:induction false} SwitchIsPairLookup(k: nat, mood: Option<string>, weather: Option<string>)
    requires k <= |PdfCases|
    ensures Switch(PdfCases[k..], PdfKey(mood, weather), White) == PairColour(PdfPairs[k..], mood, weather)
    decreases |PdfCases| - k
  {
    CaseLabelsArePairKeys();
    if k < |PdfCases| {
      var (a, b, _) := PdfPairs[k];
      assert PdfCases[k..][0] == PdfCases[k] && PdfPairs[k..][0] == PdfPairs[k];
      assert PdfCases[k..][1..] == PdfCases[k + 1..] && PdfPairs[k..][1..] == PdfPairs[k + 1..];
      if PdfKey(mood, weather) == a + "|" + b {
        SplitAtBar(JavaString(mood), JavaString(weather), a, b);
        assert mood == Some(a) by { LabelsArePlain(); assert a in Moods + Weathers; }
        assert weather == Some(b) by { LabelsArePlain(); assert b in Moods + Weathers; }
      }
      SwitchIsPairLookup(k + 1, mood, weather);
    }
  }

  /**
   * The switch on the joined string selects by the exact (mood, weather) pair, for
   * every pair of values, set or unset: no value can reach a case another pair owns.
   */
  lemma PdfColourIsPairLookup(mood: Option<string>, weather: Option<string>)
    ensures PdfColour(mood, weather) == PairColour(PdfPairs, mood, weather)
  {
    SwitchIsPairLookup(0, mood, weather);
    assert PdfCases[0..] == PdfCases && PdfPairs[0..] == PdfPairs;
  }

  /** Looking the pair up in the table is a chain of five pair tests. */
  lemma PdfPairsInOrder(mood: Option<string>, weather: Option<string>)
    ensures PairColour(PdfPairs, mood, weather) ==
      if mood == Some(Great) && weather == Some(Sunny) then Rgb(255, 248, 225)
      else if mood == Some(Okay) && weather == Some(Cloudy) then Rgb(232, 240, 254)
      else if mood == Some(Super) && weather == Some(Sunny) then Rgb(255, 253, 231)
      else if mood == Some(Sad) && weather == Some(Rainy) then Rgb(236, 240, 241)
      else if mood == Some(Exploded) && weather == Some(Stormy) then Rgb(255, 235, 238)
      else White
  {
    var p := PdfPairs;
    var (m, w) := (mood, weather);
    assert p[4..][1..] == [];
    assert p[3..][1..] == p[4..] && p[2..][1..] == p[3..] && p[1..][1..] == p[2..];
    assert PairColour(p[4..], m, w) == if m == Some(Exploded) && w == Some(Stormy) then Rgb(255, 235, 238) else White;
    assert PairColour(p[3..], m, w) == if m == Some(Sad) && w == Some(Rainy) then Rgb(236, 240, 241) else PairColour(p[4..], m, w);
    assert PairColour(p[2..], m, w) == if m == Some(Super) && w == Some(Sunny) then Rgb(255, 253, 231) else PairColour(p[3..], m, w);
    assert PairColour(p[1..], m, w) == if m == Some(Okay) && w == Some(Cloudy) then Rgb(232, 240, 254) else PairColour(p[2..], m, w);
  }

  /** The page is coloured for exactly the five listed pairs and white for every other pair. */
  lemma PdfColourCases(mood: Option<string>, weather: Option<string>)
    ensures var c := PdfColour(mood, weather);
      && (c == Rgb(255, 248, 225) <==> mood == Some(Great) && weather == Some(Sunny))
      && (c == Rgb(232, 240, 254) <==> mood == Some(Okay) && weather == Some(Cloudy))
      && (c == Rgb(255, 253, 231) <==> mood == Some(Super) && weather == Some(Sunny))
      && (c == Rgb(236, 240, 241) <==> mood == Some(Sad) && weather == Some(Rainy))
      && (c == Rgb(255, 235, 238) <==> mood == Some(Exploded) && weather == Some(Stormy))
      && (c == White <==> (!(mood == Some(Great) && weather == Some(Sunny)) && !(mood == Some(Okay) && weather == Some(Cloudy))
                          && !(mood == Some(Super) && weather == Some(Sunny)) && !(mood == Some(Sad) && weather == Some(Rainy))
                          && !(mood == Some(Exploded) && weather == Some(Stormy))))
  {
    PdfColourIsPairLookup(mood, weather);
    PdfPairsInOrder(mood, weather);
  }

  /**
   * Over the offered labels (and unset), the key identifies the pair: two pairs
   * with the same key are the same pair.
   */
  lemma PdfKeyUnambiguous(m1: Option<string>, w1: Option<string>, m2: Option<string>, w2: Option<string>)
    requires IsMoodValue(m1) && IsMoodValue(m2) && IsWeatherValue(w1) && IsWeatherValue(w2)
    ensures PdfKey(m1, w1) == PdfKey(m2, w2) <==> m1 == m2 && w1 == w2
  {
    LabelsArePlain();
    if PdfKey(m1, w1) == PdfKey(m2, w2) {
      assert '|' !in JavaString(m2) by { assert m2.Some? ==> m2.value in Moods + Weathers; }
      assert '|' !in JavaString(w2) by { assert w2.Some? ==> w2.value in Moods + Weathers; }
      SplitAtBar(JavaString(m1), JavaString(w1), JavaString(m2), JavaString(w2));
      assert m1.Some? ==> m1.value in Moods + Weathers;
      assert m2.Some? ==> m2.value in Moods + Weathers;
      assert w1.Some? ==> w1.value in Moods + Weathers;
      assert w2.Some? ==> w2.value in Moods + Weathers;
    }
  }

  /** An unset tag and the literal text "null" build the same key. */
  lemma NullTagAliases(weather: Option<string>)
    ensures PdfKey(None, weather) == PdfKey(Some("null"), weather)
    ensures PdfColour(None, weather) == PdfColour(Some("null"), weather) == White
  {
    PdfColourCases(None, weather);
    PdfColourCases(Some("null"), weather);
    LabelsArePlain();
    assert Great in Moods + Weathers && Okay in Moods + Weathers && Super in Moods + Weathers;
    assert Sad in Moods + Weathers && Exploded in Moods + Weathers;
  }

  // ---------------------------------------------------------------------------
  // Screen against PDF

  function HexDigit(c: char): Option<nat> {
    if '0' <= c <= '9' then Some(c as int - '0' as int)
    else if 'A' <= c <= 'F' then Some(c as int - 'A' as int + 10)
    else if 'a' <= c <= 'f' then Some(c as int - 'a' as int + 10)
    else None
  }

  /** A CSS hex colour, `#RGB` (each digit doubled) or `#RRGGBB`. */
  function ParseHexColour(s: string): (r: Option<Rgb>)
    ensures r.Some? ==> 0 <= r.value.red <= 255 && 0 <= r.value.green <= 255 && 0 <= r.value.blue <= 255
  {
    if |s| == 4 && s[0] == '#' && HexDigit(s[1]).Some? && HexDigit(s[2]).Some? && HexDigit(s[3]).Some? then
      Some(Rgb(17 * HexDigit(s[1]).value, 17 * HexDigit(s[2]).value, 17 * HexDigit(s[3]).value))
    else if |s| == 7 && s[0] == '#' && forall i :: 1 <= i < 7 ==> HexDigit(s[i]).Some? then
      Some(Rgb(16 * HexDigit(s[1]).value + HexDigit(s[2]).value,
               16 * HexDigit(s[3]).value + HexDigit(s[4]).value,
               16 * HexDigit(s[5]).value + HexDigit(s[6]).value))
    else None
  }

  /** The on-screen colours as RGB. */
  lemma ScreenPalette()
    ensures ParseHexColour("#FFFDE7") == Some(Rgb(255, 253, 231))
    ensures ParseHexColour("#E8F0FE") == Some(Rgb(232, 240, 254))
    ensures ParseHexColour("#E0F7FA") == Some(Rgb(224, 247, 250))
    ensures ParseHexColour("#F3E5F5") == Some(Rgb(243, 229, 245))
    ensures ParseHexColour("#F8D7DA") == Some(Rgb(248, 215, 218))
    ensures ParseHexColour("#FFF") == Some(White)
  {
  }

  /**
   * The editor and the exported page show the same colour only when both fall back to
   * white or the tags are (普通, 多雲); every other coloured case differs between the two.
   */
  lemma ScreenAndPdfAgreement(mood: Option<string>, weather: Option<string>)
    ensures ParseHexColour(ScreenColour(mood, weather)) == Some(PdfColour(mood, weather))
        <==> (ScreenColour(mood, weather) == ScreenDefault || (mood == Some(Okay) && weather == Some(Cloudy)))
  {
    ScreenPalette();
    ScreenColourCases(mood, weather);
    PdfColourCases(mood, weather);
  }
}
