/** The state of the paste dialog that the name and location logic touches:
    the current folder with the status-bar text and tool tip that show it,
    the file name box, the format box, and the last name the dialog generated
    itself (so that a name the user typed is never replaced). */
module MainForm {
  import opened Outcomes
  import opened DisplayWidth
  import opened FileNames
  import opened DisplayLocation
  import opened Locations

  class FormMain {
    /** The ANSI code page the status bar measures text in. */
    const codePage: CodePage

    var currentLocation: string
    /** `tsslCurrentLocation.ToolTipText` */
    var locationToolTip: string
    /** `tsslCurrentLocation.Text` */
    var locationText: string
    /** `lastAutoGeneratedFileName`; `None` is its initial `null`. */
    var lastAutoGeneratedFileName: Option<string>
    /** `txtFileName.Text` */
    var fileNameText: string
    /** `cboExtension.Text` */
    var extensionText: string

    /** The current folder always ends with `\` and its tool tip shows it in
        full. */
    ghost predicate Valid()
      reads this
    {
      EndsWithSeparator(currentLocation) && locationToolTip == currentLocation
    }

    /** `FormMain(location)`: the form opens on `location`; the name and
        format boxes start empty. */
    constructor(cp: CodePage, location: string)
      ensures Valid()
      ensures codePage == cp
      ensures currentLocation == WithTrailingSeparator(location)
      ensures locationText == ShortForm(cp, currentLocation)
      ensures lastAutoGeneratedFileName == None && fileNameText == "" && extensionText == ""
    {
      codePage := cp;
      currentLocation := "\\";
      locationToolTip := "\\";
      locationText := "";
      lastAutoGeneratedFileName := None;
      fileNameText := "";
      extensionText := "";
      new;
      SetCurrentLocation(location);
    }

    /** The `CurrentLocation` setter: stores the folder with a trailing `\`,
        shows it in full in the tool tip and shortened in the status bar. */
    method SetCurrentLocation(value: string)
      modifies this
      ensures Valid()
      ensures currentLocation == WithTrailingSeparator(value)
      ensures locationText == ShortForm(codePage, currentLocation)
      ensures Width(codePage, locationText) <= MaxWidth
      ensures lastAutoGeneratedFileName == old(lastAutoGeneratedFileName)
      ensures fileNameText == old(fileNameText) && extensionText == old(extensionText)
    {
      currentLocation := if EndsWithSeparator(value) then value else value + "\\";
      locationToolTip := currentLocation;
      locationText := GenerateDisplayLocation(codePage, currentLocation);
      ShortFormWidth(codePage, currentLocation);
    }

    /** The end of `FormMain_Load`: the first recognised format is selected
        (when there is none the status bar shows `noFormatText` instead of the
        location), and a default name is generated and put in the name box. */
    method Load(formats: seq<string>, noFormatText: string, today: string, existing: set<string>)
      requires Valid()
      modifies this
      ensures Valid()
      ensures currentLocation == old(currentLocation)
      ensures extensionText == if formats != [] then formats[0] else old(extensionText)
      ensures locationText == if formats != [] then old(locationText) else noFormatText
      ensures fileNameText == ChosenName(currentLocation, extensionText, today, existing)
      ensures lastAutoGeneratedFileName == Some(fileNameText)
      ensures fileNameText != Fallback ==> PathOf(currentLocation, fileNameText, extensionText) !in existing
    {
      if |formats| > 0 {
        extensionText := formats[0];
      } else {
        locationText := noFormatText;
      }
      var name := GenerateFileName(currentLocation, extensionText, today, existing);
      lastAutoGeneratedFileName := Some(name);
      fileNameText := name;
    }

    /** `cboExtension_SelectedIndexChanged` after `extension` is selected: the
        name is generated again for the new format only while the name box
        still holds the last generated name; a name the user typed stays. */
    method ExtensionChanged(extension: string, today: string, existing: set<string>)
      requires Valid()
      modifies this
      ensures Valid()
      ensures extensionText == extension
      ensures currentLocation == old(currentLocation) && locationText == old(locationText)
      ensures old(lastAutoGeneratedFileName) == Some(old(fileNameText)) ==>
        fileNameText == ChosenName(currentLocation, extension, today, existing) &&
        lastAutoGeneratedFileName == Some(fileNameText)
      ensures old(lastAutoGeneratedFileName) != Some(old(fileNameText)) ==>
        fileNameText == old(fileNameText) && lastAutoGeneratedFileName == old(lastAutoGeneratedFileName)
    {
      extensionText := extension;
      if lastAutoGeneratedFileName == Some(fileNameText) {
        var name := GenerateFileName(currentLocation, extensionText, today, existing);
        lastAutoGeneratedFileName := Some(name);
        fileNameText := name;
      }
    }

    /** The path `btnSave_Click` saves to, and whether it asks before
        overwriting: the folder's separator test there never adds a second
        `\`, because the current folder already ends with one. */
    method SaveTarget(existing: set<string>) returns (path: string, confirm: bool)
      requires Valid()
      ensures path == PathOf(currentLocation, fileNameText, extensionText)
      ensures confirm <==> path in existing
    {
      var location := if EndsWithSeparator(currentLocation) then currentLocation else currentLocation + "\\";
      path := location + fileNameText + "." + extensionText;
      confirm := path in existing;
    }
  }
}
