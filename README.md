# Diary: calendar grid and diary editor, modelled in Dafny

This project models the logic inside the two view classes of a desktop diary
application: the month calendar (`CalendarView`) and the per-day diary editor
(`DiaryView`).

- **Calendar** (`calendar_view.dfy`). `BuildCalendar` clears a grid pane and adds
  the seven weekday headers 一..日 in row 0. It then places one button per day of
  the month. The first day goes in column `ISO weekday of the 1st % 7`. Each later
  day goes one column to the right, wrapping to column 0 of the next row after
  column 6. The grid pane is a class whose `children` list the methods extend in
  place. A button's click parses its own text and opens the date
  `%04d-%02d-%02d`. `Show` builds the year choices (this year ± 2) and the month
  choices (1..12) with their loops, then lays out the month the clock shows
  at that point.
- **Java text conversions** (`java_text.dfy`): `String.valueOf(int)`,
  `Integer.parseInt` and `%0<w>d`, which the grid's buttons and date strings use.
- **Gregorian calendar** (`gregorian.dfy`): month lengths and ISO weekdays in the
  proleptic Gregorian calendar of `java.time`. This is a reference definition
  counted in days from 0001-01-01, a Monday, not a transcription of `java.time`.
- **Diary editor.** The offered mood and weather tags are in `diary_tags.dfy`.
  The on-screen background is a first-match rule chain with default `#FFF`. The
  PDF page colour is a `switch` on `mood + "|" + weather` with default white.
  Both are in `diary_colours.dfy`. The PDF body paragraph, the `.txt` backup and
  the file names are in `diary_text.dfy`. `diary_view.dfy` holds the editor as a
  class: its fields (tags, text, picture, box style) and the methods that change
  them (`ChooseImage`, `LoadFromDB`, `ApplyBg`, `Show`, `Save`), plus `ExportPdf`.

An unset combo box (Java `null`) is `None`. Java's string `+` prints `null` as
`"null"`; that is `JavaString`.

## Model

| member | source | states |
|---|---|---|
| `JavaText.ParseInt` | FinalPoject/src/FinalProject/view/CalendarView.java:74 | `Integer.parseInt`: a parsed value is a Java `int`, and unsigned text parses to a non-negative value |
| `JavaText.IntToString` | FinalPoject/src/FinalProject/view/CalendarView.java:70 | `String.valueOf(int)` is non-empty and starts with '-' exactly for negative numbers; a negative number is '-' then the digits of its magnitude, and a non-negative one is ASCII digits with no leading zero |
| `JavaText.FormatZeroPadded` | FinalPoject/src/FinalProject/view/CalendarView.java:73 | `%0<w>d` is at least `w` characters; for a non-negative number it is all digits and exactly max(w, digits) long; for a negative one it is '-' followed by digits |
| `JavaText.ParseIntOfIntToString` | FinalPoject/src/FinalProject/view/CalendarView.java:70-74 | parsing `String.valueOf(n)` gives back `n` for every Java `int`, so the handler reads back the day the button was labelled with |
| `JavaText.ParseIntOfZeroPadded` | FinalPoject/src/FinalProject/view/CalendarView.java:73-74 | `%0<w>d` of a non-negative `n` has length max(w, digits of n) and parses back to `n` |
| `Gregorian.LengthOfMonth` | FinalPoject/src/FinalProject/view/CalendarView.java:66 | `lengthOfMonth` is 28..31; it is 29 exactly for February of a leap year and 28 exactly for February of a common year |
| `Gregorian.IsoDayOfWeek` | FinalPoject/src/FinalProject/view/CalendarView.java:64-65 | the ISO weekday value is always 1..7 |
| `Gregorian.YearLength` | FinalPoject/src/FinalProject/view/CalendarView.java:63-66 | consecutive New Year's days are 366 days apart after a leap year and 365 after a common year |
| `Gregorian.WeekdayOfDay` | FinalPoject/src/FinalProject/view/CalendarView.java:64-65 | the weekday of day `d` is the weekday of the 1st advanced by `d - 1`, modulo 7 |
| `Gregorian.NextMonthWeekday` | FinalPoject/src/FinalProject/view/CalendarView.java:63-66 | the next month's 1st falls `lengthOfMonth` weekdays after this month's 1st (December rolls into January of the next year) |
| `Gregorian.DayZeroIsMonday` | FinalPoject/src/FinalProject/view/CalendarView.java:64-65 | anchor of the day count: day 0, 0001-01-01, is a Monday (ISO weekday 1) |
| `Gregorian.UnixEpochIsThursday` | FinalPoject/src/FinalProject/view/CalendarView.java:64-65 | anchor check: 1970-01-01, epoch day 0 of `java.time`, is a Thursday |
| `Gregorian.March2024StartsOnFriday` | FinalPoject/src/FinalProject/view/CalendarView.java:64-65 | anchor check: 2024-03-01 is a Friday |
| `Calendar.StartColumn` | FinalPoject/src/FinalProject/view/CalendarView.java:65 | the offset `getValue() % 7` is in 0..6; it is 0 exactly for Sunday, and Monday..Saturday keep their numbers 1..6 |
| `Calendar.GridPane.Clear` | FinalPoject/src/FinalProject/view/CalendarView.java:55 | `getChildren().clear()`: the grid holds no children afterwards |
| `Calendar.GridPane.Add` | FinalPoject/src/FinalProject/view/CalendarView.java:60 | `grid.add(node, col, row)` appends one child at that column and row and keeps the earlier children in order |
| `Calendar.HeaderCells` | FinalPoject/src/FinalProject/view/CalendarView.java:56-61 | the header row is seven labels, label `i` in column `i` of row 0 |
| `Calendar.DayCells` | FinalPoject/src/FinalProject/view/CalendarView.java:67-83 | one button per day; the button at index `i` is labelled `String.valueOf(i + 1)` and remembers year and month; every button lies in columns 0..6, and in row 1 or below when the first column is not negative |
| `Calendar.Layout` | FinalPoject/src/FinalProject/view/CalendarView.java:55-83 | the laid-out month has 7 + `lengthOfMonth` children, and child `7 + i` is the button labelled with day `i + 1` |
| `Calendar.BuildCalendar` | FinalPoject/src/FinalProject/view/CalendarView.java:54-84 | after the call the grid holds exactly the seven headers in row 0, then one button per day 1..total at column `(dow + d - 1) % 7`, row `1 + (dow + d - 1) / 7`; the loop invariants tie `col`/`row` to `d` |
| `Calendar.YearOptions` | FinalPoject/src/FinalProject/view/CalendarView.java:26 | five year choices, increasing, from this year − 2 to this year + 2; a year is offered iff it is in that range |
| `Calendar.MonthOptions` | FinalPoject/src/FinalProject/view/CalendarView.java:28 | twelve month choices 1..12 in order; a month is offered iff it is in 1..12 |
| `Calendar.Show` | FinalPoject/src/FinalProject/view/CalendarView.java:19-47 | with the three clock readings of lines 25, 29 and 47 as parameters: the year list is this year − 2 .. this year + 2 in order, the month list is 1..12 in order, the preselected year and month are the readings of lines 25 and 29 and are among the choices, and the grid is laid out for the year of line 25 and the month of line 47 |
| `Calendar.NextCell` | FinalPoject/src/FinalProject/view/CalendarView.java:78-82 | after a day in column < 6 the next day is one column right in the same row; after column 6 it is column 0 of the next row; the row changes only then |
| `Calendar.DaysPlacedInOrder` | FinalPoject/src/FinalProject/view/CalendarView.java:69-70 | the loop places `total` buttons; the one at index `i` reads back as day `i + 1`, so every day 1..total appears once, in increasing order |
| `Calendar.FormatDate` | FinalPoject/src/FinalProject/view/CalendarView.java:73-74 | the date string is at least 10 characters, and for non-negative fields holds only digits and dashes |
| `Calendar.ClickedDate` | FinalPoject/src/FinalProject/view/CalendarView.java:72-76 | a click opens a date exactly when the node is a day button whose text `Integer.parseInt` accepts; the date is that year, month and parsed day formatted |
| `Calendar.ClickOpensItsDate` | FinalPoject/src/FinalProject/view/CalendarView.java:72-76 | clicking the button of day `d` opens the editor on `FormatDate(year, month, d)` |
| `Calendar.DateStringShape` | FinalPoject/src/FinalProject/view/CalendarView.java:73-74 | for years 0..9999 the date string has 10 characters, '-' at positions 4 and 7, its three fields are ASCII digits only (zero-padded, no sign), and they parse back to year, month and day |
| `Calendar.LongYearDateString` | FinalPoject/src/FinalProject/view/CalendarView.java:73-74 | from year 10000 on, the date string is longer than 10 characters |
| `Calendar.CellsInsideGrid` | FinalPoject/src/FinalProject/view/CalendarView.java:65-82 | with 0 <= dow <= 6 and 28 <= total <= 31 every day lies in columns 0..6 and rows 1..6 |
| `Calendar.CellPositionGivesDay` | FinalPoject/src/FinalProject/view/CalendarView.java:67-82 | the inverse of the placement: `7 * (row - 1) + col == dow + i` for the button at index `i` |
| `Calendar.CellsDistinct` | FinalPoject/src/FinalProject/view/CalendarView.java:67-82 | distinct days occupy distinct (column, row) cells |
| `Calendar.HeaderRowOnly` | FinalPoject/src/FinalProject/view/CalendarView.java:56-67 | the grid holds 7 + total children; the first seven are the headers 一..日 at columns 0..6 of row 0; a child is in row 0 iff it is a header, and no day button is in row 0 |
| `Calendar.HeaderAboveDay` | FinalPoject/src/FinalProject/view/CalendarView.java:56-65 | day `d` sits in column `ISO weekday % 7`, so the header above it names the weekday after its own and never its own (a Sunday sits under 一) |
| `Calendar.NextMonthContinues` | FinalPoject/src/FinalProject/view/CalendarView.java:63-67 | the next month's grid starts in the column right after this month's last day |
| `DiaryTags.LabelsArePlain` | FinalPoject/src/FinalProject/view/DiaryView.java:66-70 | no offered mood or weather label contains the bar character or a line break or equals "null", and the labels within each list differ |
| `DiaryTags.JavaString` | FinalPoject/src/FinalProject/view/DiaryView.java:128-129 | Java's `+` on a tag: an unset (null) tag prints as "null", a set one as itself |
| `DiaryText.Shown` | FinalPoject/src/FinalProject/view/DiaryView.java:215-216 | the PDF shows an unset tag as `(未選)` and a set one as itself |
| `DiaryColours.FirstMatch` | FinalPoject/src/FinalProject/view/DiaryView.java:157-162 | the result is the colour of the first matching rule, or the default when no rule matches; it is always the default or the colour of a matching rule |
| `DiaryColours.ScreenColour` | FinalPoject/src/FinalProject/view/DiaryView.java:157-162 | the on-screen colour is one of #FFFDE7, #E8F0FE, #E0F7FA, #F3E5F5, #F8D7DA and #FFF, and #FFF whenever the mood is unset |
| `DiaryColours.ChooseScreenColour` | FinalPoject/src/FinalProject/view/DiaryView.java:157-162 | the if/else chain that reassigns `c` picks the colour of the first matching rule of the rule table |
| `DiaryColours.ScreenRulesInOrder` | FinalPoject/src/FinalProject/view/DiaryView.java:157-162 | trying the rule table in order is the same as the chain of five tests with default `#FFF` |
| `DiaryColours.ScreenColourCases` | FinalPoject/src/FinalProject/view/DiaryView.java:157-162 | each on-screen colour is chosen exactly when its condition holds: (很棒, 晴朗) → #FFFDE7, (普通, 多雲) → #E8F0FE, 超好 → #E0F7FA, 難過 → #F3E5F5, 爆炸了 → #F8D7DA, otherwise #FFF |
| `DiaryColours.MoodAloneDecides` | FinalPoject/src/FinalProject/view/DiaryView.java:160-162 | for moods 超好, 難過 and 爆炸了 the on-screen colour is the same whatever the weather |
| `DiaryColours.UnsetTagsOnScreen` | FinalPoject/src/FinalProject/view/DiaryView.java:157-162 | an unset mood or weather never matches the two pair rules; an unset mood gives `#FFF` |
| `DiaryColours.PdfKey` | FinalPoject/src/FinalProject/view/DiaryView.java:175 | the switch key is the mood as `+` prints it, then a bar, then the weather as `+` prints it |
| `DiaryColours.Switch` | FinalPoject/src/FinalProject/view/DiaryView.java:175-182 | a string switch returns the colour of the first case label equal to the key, or the default when none is; it is always the default or the colour of a case equal to the key |
| `DiaryColours.PdfColour` | FinalPoject/src/FinalProject/view/DiaryView.java:175-182 | the page colour is one of the five case colours or white |
| `DiaryColours.SplitAtBar` | FinalPoject/src/FinalProject/view/DiaryView.java:175 | if x, a bar, y equals a, a bar, b and neither a nor b holds a bar, then x is a and y is b |
| `DiaryColours.CaseLabelsArePairKeys` | FinalPoject/src/FinalProject/view/DiaryView.java:176-180 | each case label is the mood, a bar and the weather of one listed pair of offered labels, with that pair's colour |
| `DiaryColours.PdfColourIsPairLookup` | FinalPoject/src/FinalProject/view/DiaryView.java:175-182 | for every mood and weather, set, unset or arbitrary text, the switch on the joined key gives the colour of the exact (mood, weather) pair, else white |
| `DiaryColours.PdfPairsInOrder` | FinalPoject/src/FinalProject/view/DiaryView.java:175-182 | looking the pair up in the table is five pair tests in order, ending in white |
| `DiaryColours.PdfColourCases` | FinalPoject/src/FinalProject/view/DiaryView.java:175-182 | each of the five page colours is chosen exactly for its pair; the page is white exactly for every other pair, including unset tags |
| `DiaryColours.PdfKeyUnambiguous` | FinalPoject/src/FinalProject/view/DiaryView.java:175 | over the offered labels and unset, two (mood, weather) pairs have the same key iff they are the same pair |
| `DiaryColours.NullTagAliases` | FinalPoject/src/FinalProject/view/DiaryView.java:175 | an unset tag and the text "null" build the same key; both give a white page |
| `DiaryColours.ParseHexColour` | FinalPoject/src/FinalProject/view/DiaryView.java:163-166 | a CSS hex colour read as RGB has components in 0..255 |
| `DiaryColours.ScreenPalette` | FinalPoject/src/FinalProject/view/DiaryView.java:157-162 | the six on-screen colours as RGB; `#FFF` is white |
| `DiaryColours.ScreenAndPdfAgreement` | FinalPoject/src/FinalProject/view/DiaryView.java:156-182 | the editor and the exported page show the same colour iff the editor shows its default or the tags are (普通, 多雲) |
| `DiaryText.MetadataParagraph` | FinalPoject/src/FinalProject/view/DiaryView.java:213-217 | the PDF paragraph starts with the date line and ends with a blank line followed by the content verbatim |
| `DiaryText.MetadataRoundTrip` | FinalPoject/src/FinalProject/view/DiaryView.java:213-217 | the PDF paragraph is the date line, the mood line (or `(未選)`), the weather line (or `(未選)`), a blank line and the content verbatim: parsing it gives those back |
| `DiaryText.BackupText` | FinalPoject/src/FinalProject/view/DiaryView.java:127-130 | the backup starts with the date line and ends with a line break followed by the content verbatim, with nothing after it |
| `DiaryText.BackupFileName` | FinalPoject/src/FinalProject/view/DiaryView.java:126 | the backup file name is `Diary_`, the date, then `.txt` |
| `DiaryText.PdfFileName` | FinalPoject/src/FinalProject/view/DiaryView.java:171 | the proposed PDF name is `Diary_`, the date, then `.pdf` |
| `DiaryText.BackupRoundTrip` | FinalPoject/src/FinalProject/view/DiaryView.java:126-130 | the backup is date, mood and weather each ended by "\n", then the content with nothing after it: parsing it gives those back |
| `DiaryText.EditorTextsReadBack` | FinalPoject/src/FinalProject/view/DiaryView.java:127-130 | with offered or unset tags and a one-line date, both the PDF paragraph and the backup read back for every content |
| `DiaryText.UnsetAliases` | FinalPoject/src/FinalProject/view/DiaryView.java:215-216 | an unset tag prints like the text `(未選)` in the PDF, and like the text "null" in the backup |
| `DiaryText.BackupNamePerDate` | FinalPoject/src/FinalProject/view/DiaryView.java:126 | `Diary_<date>.txt` names one backup per date: equal names iff equal dates |
| `DiaryText.PdfNamePerDate` | FinalPoject/src/FinalProject/view/DiaryView.java:171 | `Diary_<date>.pdf` is one name per date, and never equals a backup's name |
| `Diary.SavedImagePath` | FinalPoject/src/FinalProject/view/DiaryView.java:119 | the saved picture path is null exactly when no picture is selected, and otherwise is its absolute path |
| `Diary.BoxStyle` | FinalPoject/src/FinalProject/view/DiaryView.java:163-166 | the box style is `-fx-background-color:`, the colour, a ';', then the fixed border `-fx-border-color:#DDD;-fx-border-radius:6;-fx-background-radius:6;` |
| `Diary.DiaryView.constructor` | FinalPoject/src/FinalProject/view/DiaryView.java:24-73 | a new editor has the date it was given (lines 34-37), no picture (the field default, line 24), and no tags and empty text, as the fresh combo boxes and text area of `show()` start (lines 65-73) |
| `Diary.DiaryView.ChooseImage` | FinalPoject/src/FinalProject/view/DiaryView.java:84-90 | a picked file becomes the picture; a cancelled dialog keeps the current one |
| `Diary.DiaryView.LoadFromDB` | FinalPoject/src/FinalProject/view/DiaryView.java:140-154 | a stored row sets tags and text; its picture is taken only if it names one whose file exists; no row changes nothing |
| `Diary.DiaryView.ApplyBg` | FinalPoject/src/FinalProject/view/DiaryView.java:156-167 | the box style carries the on-screen colour of the current tags, then the fixed border |
| `Diary.DiaryView.Show` | FinalPoject/src/FinalProject/view/DiaryView.java:109-110 | opening loads the stored row as `LoadFromDB` does, then colours the box for the loaded tags |
| `Diary.DiaryView.Save` | FinalPoject/src/FinalProject/view/DiaryView.java:113-138 | the row handed to the store is (date, mood, weather, content, saved picture path); the backup is `diary/Diary_<date>.txt` with the backup text; the box is recoloured; nothing else changes |
| `Diary.DiaryView.ExportPdf` | FinalPoject/src/FinalProject/view/DiaryView.java:169-229 | the dialog proposes `Diary_<date>.pdf`; a cancel exports nothing; otherwise the page colour, title, paragraph and picture (only if selected and existing) are as above |
| `Diary.ReopenAfterSave` | FinalPoject/src/FinalProject/view/DiaryView.java:113-154 | saving and reopening the date with the saved row restores tags, text and colour, and the picture while its file exists |

## Left out

- JavaFX widget construction, layout, alerts, stages and scenes: UI plumbing. The grid pane is kept only as the list of its children, and the content box only as its style string.
- iText rendering (fonts, page size, margins, page events, `scaleToFit`, document writing): foreign library work with float geometry. `ExportPdf` returns what goes on the page.
- Exceptions caught in `doExportPDF` and the `IOException` of the text backup: they are only printed and alerted. The model always produces the document and the backup.
- The database access class: its SQL upsert and ordering run inside MySQL. `Save` returns the row handed to it; the row `loadDiary` returns is a parameter of `LoadFromDB` and `Show`.
- The password gate, the home list view, `Main` and the JPA entity of the second backend: file I/O, a foreign SHA-256 digest, or no behaviour.
- File-system calls (`mkdirs`, `FileWriter`, `File.exists`): existence is the parameter `existing`, and writing is the returned `TextFile`.
- `File.getAbsolutePath`: a picked file is modelled by its absolute path, and a stored path is taken to be absolute already.
- The refresh callback after saving, and the image preview.
- A null `content` column: `Entry.content` is always a string.
- `Integer.parseInt` accepts Unicode digits other than ASCII, and `String.format` uses the locale's digits. Only ASCII digits are modelled.
- `YearMonth.of` throws for a year outside ±999,999,999. `BuildCalendar` requires a year in that range, and the month always comes from the 1..12 list.
- ParseInt: its contract gives only facts about the range of the result. Its behaviour is its body, and `ParseIntOfIntToString` and `ParseIntOfZeroPadded` state what the calendar relies on.
- Gregorian: weekday and month length come from a day count from 0001-01-01, not from `java.time`'s own epoch-day code. The lemmas `UnixEpochIsThursday` and `March2024StartsOnFriday` tie it to known dates.

## Notes on the code

- The headers run 一..日 (Monday..Sunday) from column 0, but the offset `getValue() % 7` (CalendarView.java:65) puts a Sunday in column 0. Each day therefore sits under the header of the weekday after its own (`HeaderAboveDay`).
- `show` reads the clock three times (CalendarView.java:25, 29, 47). If the month changes between lines 29 and 47, the grid shows the next month while the month choice still shows the earlier one. At New Year the grid shows January of the year before, because the year comes from line 25. `Calendar.Show` takes the three readings as parameters and states this.
- An unset mood or weather prints as "null" in the backup (DiaryView.java:128-129) and as `(未選)` in the PDF (DiaryView.java:215-216). So an unset tag and one holding that text give the same output (`NullTagAliases`, `UnsetAliases`).
