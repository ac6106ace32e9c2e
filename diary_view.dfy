/**
 * The diary editor for one date: its field values, what it loads from the store,
 * what it saves (the database row and the text backup), its background style,
 * and the PDF it exports.
 */
module Diary {
  import opened Wrappers
  import opened DiaryTags
  import opened DiaryColours
  import opened DiaryText

  /** A file picked as the entry's picture, by its absolute path. */
  datatype ImageFile = ImageFile(absolutePath: string)

  /** A row of the diary table; `None` is a SQL/Java null. */
  datatype Entry = Entry(date: string, mood: Option<string>, weather: Option<string>, content: string, imagePath: Option<string>)

  datatype TextFile = TextFile(directory: string, name: string, text: string)

  /** What the export writes: the page colour, the title, the body paragraph and the picture, if any. */
  datatype PdfDocument = PdfDocument(path: string, background: Rgb, title: string, body: string, image: Option<string>)

  /** The picture path stored on save: null exactly when no picture is selected. */
  function SavedImagePath(selected: Option<ImageFile>): (path: Option<string>)
    ensures path.None? <==> selected.None?
    ensures selected.Some? ==> path == Some(selected.value.absolutePath)
  {
    match selected
    case None => None
    case Some(f) => Some(f.absolutePath)
  }

  /** The style of the editor's content box: the background colour, then a fixed border. */
  function BoxStyle(colour: string): (style: string)
    ensures "-fx-background-color:" <= style
    ensures |style| == 21 + |colour| + 1 + |Border| && style[21..21 + |colour|] == colour && style[21 + |colour|] == ';'
    ensures style[22 + |colour|..] == Border
  {
    "-fx-background-color:" + colour + ";" + Border
  }

  /** The fixed border part of the box style. */
  const Border: string := "-fx-border-color:#DDD;-fx-border-radius:6;-fx-background-radius:6;"

  class DiaryView {
    const date: string
    var selectedImage: Option<ImageFile>
    var mood: Option<string>
    var weather: Option<string>
    var content: string
    var boxStyle: string

    /** A fresh editor: nothing chosen, empty text, no style yet. */
    constructor (date: string)
      ensures this.date == date
      ensures selectedImage == None && mood == None && weather == None && content == "" && boxStyle == ""
    {
      this.date := date;
      selectedImage := None;
      mood := None;
      weather := None;
      content := "";
      boxStyle := "";
    }

    /** The picture button: a cancelled dialog (`None`) keeps the current picture. */
    method ChooseImage(chosen: Option<ImageFile>)
      modifies this`selectedImage
      ensures selectedImage == if chosen.Some? then chosen else old(selectedImage)
    {
      if chosen.Some? {
        selectedImage := chosen;
      }
    }

    /**
     * Fills the editor from the stored row, if there is one. The picture is taken
     * only when the row names one and that file exists (`existing` stands for the
     * file system); otherwise the current picture stays.
     */
    method LoadFromDB(stored: Option<Entry>, existing: set<string>)
      modifies this`mood, this`weather, this`content, this`selectedImage
      ensures stored.None? ==> mood == old(mood) && weather == old(weather) && content == old(content)
      ensures stored.Some? ==> mood == stored.value.mood && weather == stored.value.weather && content == stored.value.content
      ensures selectedImage ==
        if stored.Some? && stored.value.imagePath.Some? && stored.value.imagePath.value in existing
        then Some(ImageFile(stored.value.imagePath.value)) else old(selectedImage)
    {
      if stored.Some? {
        var d := stored.value;
        mood := d.mood;
        weather := d.weather;
        content := d.content;
        if d.imagePath.Some? {
          if d.imagePath.value in existing {
            selectedImage := Some(ImageFile(d.imagePath.value));
          }
        }
      }
    }

    /** Colours the content box for the current tags. */
    method ApplyBg()
      modifies this`boxStyle
      ensures boxStyle == BoxStyle(ScreenColour(mood, weather))
    {
      var c := ChooseScreenColour(mood, weather);
      boxStyle := BoxStyle(c);
    }

    /** Opening the editor: load the stored row, then colour the box. */
    method Show(stored: Option<Entry>, existing: set<string>)
      modifies this`mood, this`weather, this`content, this`selectedImage, this`boxStyle
      ensures stored.None? ==> mood == old(mood) && weather == old(weather) && content == old(content)
      ensures stored.Some? ==> mood == stored.value.mood && weather == stored.value.weather && content == stored.value.content
      ensures selectedImage ==
        if stored.Some? && stored.value.imagePath.Some? && stored.value.imagePath.value in existing
        then Some(ImageFile(stored.value.imagePath.value)) else old(selectedImage)
      ensures boxStyle == BoxStyle(ScreenColour(mood, weather))
    {
      LoadFromDB(stored, existing);
      ApplyBg();
    }

    /**
     * Saving: the row handed to the store, the backup file written under
     * `diary/`, and the box recoloured for the saved tags.
     */
    method Save() returns (saved: Entry, backup: TextFile)
      modifies this`boxStyle
      ensures saved == Entry(date, mood, weather, content, SavedImagePath(selectedImage))
      ensures backup == TextFile(BackupDirectory, BackupFileName(date), BackupText(date, mood, weather, content))
      ensures boxStyle == BoxStyle(ScreenColour(mood, weather))
    {
      saved := Entry(date, mood, weather, content, SavedImagePath(selectedImage));
      backup := TextFile(BackupDirectory, BackupFileName(date), BackupText(date, mood, weather, content));
      ApplyBg();
    }

    /**
     * Exporting: the dialog proposes `Diary_<date>.pdf`; a cancelled dialog
     * (`chosen == None`) exports nothing. The picture goes in only when one is
     * selected and its file exists.
     */
    method ExportPdf(chosen: Option<string>, existing: set<string>) returns (proposed: string, doc: Option<PdfDocument>)
      ensures proposed == PdfFileName(date)
      ensures doc.None? <==> chosen.None?
      ensures doc.Some? ==> doc.value.path == chosen.value && doc.value.title == PdfTitle
      ensures doc.Some? ==> doc.value.background == PdfColour(mood, weather)
      ensures doc.Some? ==> doc.value.body == MetadataParagraph(date, mood, weather, content)
      ensures doc.Some? ==> (doc.value.image.Some? <==> selectedImage.Some? && selectedImage.value.absolutePath in existing)
      ensures doc.Some? && doc.value.image.Some? ==> doc.value.image.value == selectedImage.value.absolutePath
    {
      proposed := PdfFileName(date);
      if chosen.None? {
        return proposed, None;
      }
      var bg := Switch(PdfCases, PdfKey(mood, weather), White);
      var body := MetadataParagraph(date, mood, weather, content);
      var image := if selectedImage.Some? && selectedImage.value.absolutePath in existing
                   then Some(selectedImage.value.absolutePath) else None;
      doc := Some(PdfDocument(chosen.value, bg, PdfTitle, body, image));
    }
  }

  /**
   * Saving, then opening a new editor on the same date with the row the store
   * hands back, restores the tags, the text and the colour, and the picture
   * as long as its file still exists. (The store is taken to return the row it
   * was last given for that date.)
   */
  method ReopenAfterSave(view: DiaryView, existing: set<string>) returns (reopened: DiaryView)
    modifies view`boxStyle
    ensures reopened.date == view.date
    ensures reopened.mood == view.mood && reopened.weather == view.weather && reopened.content == view.content
    ensures reopened.boxStyle == view.boxStyle
    ensures view.selectedImage.Some? && view.selectedImage.value.absolutePath in existing ==> reopened.selectedImage == view.selectedImage
    ensures view.selectedImage.None? ==> reopened.selectedImage.None?
  {
    var saved, _ := view.Save();
    reopened := new DiaryView(view.date);
    reopened.Show(Some(saved), existing);
  }
}
