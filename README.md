# PasteEx paste dialog: file names, folders and the status-bar location

PasteEx saves the clipboard as a file. Its main form, `FormMain`, chooses
where the file goes and what it is called:

- **Default file name.** `GenerateFileName` offers `Clipboard_<yyyyMMdd>`.
  When that file exists it offers the first free `Clipboard_<yyyyMMdd> (n)`
  for n from 1 to 300. When all of those are taken too, it offers `Default`.
- **Status-bar text.** `GenerateDisplayLocation` shortens a folder wider than
  47 bytes in the system's ANSI code page. The short form is a head cut by
  `StrCut`, an ellipsis, and the last path segment when there is room for it.
- **Current folder.** The `CurrentLocation` setter makes sure the folder ends
  with `\`. It then updates the status bar and its tool tip.
- **Re-naming on a format change.** When the user picks another format, the
  name is generated again. This happens only while the name box still holds
  the last generated name.
- **Quick paste.** `QuickPasteEx` works without the dialog. It drops a trailing
  `"` from the location and adds a trailing `\`. It uses the explicit file
  name when there is one and the default name otherwise. Then it checks the
  folder and the file and decides what to do.

The model is split into these modules:

| module | contents |
|---|---|
| `DisplayWidth` | Byte widths in a code page, and `StrCut` as a loop proved against the function `Cut`. |
| `FileNames` | `GenerateFileName` as a loop proved against `ChosenName`. |
| `DisplayLocation` | `GenerateDisplayLocation`, including its two loops over the `char[]` buffer of the tail, proved against `ShortForm`. |
| `Locations` | Folder normalisation, and `QuickPasteEx` proved against `QuickPastePlan`. |
| `MainForm` | The class `FormMain`, whose methods update the form's fields in place. |
| `Outcomes` | `Option` and `Result`, shared by the other modules. |

The environment is supplied as parameters:

- The date `DateTime.Now.ToString("yyyyMMdd")` is the `today` parameter.
- The file system is a `set<string>` of existing file paths, plus a set of
  existing folders for `Directory.Exists`.
- The ANSI code page (`Encoding.Default`) is a `CodePage`: the set of
  characters it encodes in two bytes. Every other character takes one byte,
  and ASCII always takes one.

## Model

| member | source | states |
|---|---|---|
| DisplayWidth.ByteCount | PasteEx/Forms/FormMain.cs:142-150 | A character counts 1 or 2 bytes, and an ASCII character counts 1. |
| DisplayWidth.Width | PasteEx/Forms/FormMain.cs:128 | The byte length of a string is between its character count and twice that. |
| DisplayWidth.WidthConcat | PasteEx/Forms/FormMain.cs:128 | The width of a concatenation is the sum of the widths of its parts. |
| DisplayWidth.CutSpec | PasteEx/Forms/FormMain.cs:182-208 | `StrCut` keeps a prefix that is strictly under the budget, or empty when there is no budget. Adding the next character would reach the budget. |
| DisplayWidth.CutUnique | PasteEx/Forms/FormMain.cs:182-208 | Any prefix with those properties is the one `StrCut` keeps, so the result is the longest prefix under the budget. |
| DisplayWidth.StrCut | PasteEx/Forms/FormMain.cs:182-208 | The loop that adds widths and stops before the character that reaches `length` returns `Cut(str, length)`. |
| FileNames.DecimalRoundTrip | PasteEx/Forms/FormMain.cs:105 | The counter printed in `base (n)` reads back as `n`. |
| FileNames.CandidatesDistinct | PasteEx/Forms/FormMain.cs:105-106 | Different counters give different names. |
| FileNames.PathsDistinct | PasteEx/Forms/FormMain.cs:96-106 | Different names in the same folder with the same extension give different paths. |
| FileNames.FirstFreeFallback | PasteEx/Forms/FormMain.cs:101-117 | From counter `n` on, the probe gives `Default` exactly when every remaining candidate exists. |
| FileNames.FirstFreeFound | PasteEx/Forms/FormMain.cs:101-117 | Otherwise it gives a candidate whose file does not exist, and every earlier candidate's file exists. |
| FileNames.ChosenIsFresh | PasteEx/Forms/FormMain.cs:93-121 | A generated name other than `Default` names a file that does not exist. |
| FileNames.ChosenIsFirstFree | PasteEx/Forms/FormMain.cs:93-121 | A generated name other than `Default` is the first free one in probing order. |
| FileNames.FallbackIffAllTaken | PasteEx/Forms/FormMain.cs:112-116 | `Default` comes back exactly when the base name and all of `(1)` to `(300)` exist. |
| FileNames.CandidatePathsCount | PasteEx/Forms/FormMain.cs:96-106 | The first `m` probed paths are `m` different paths. |
| FileNames.FallbackNeedsAllFiles | PasteEx/Forms/FormMain.cs:93-121 | With at most 300 existing files the result is never `Default`. |
| FileNames.GenerateFileName | PasteEx/Forms/FormMain.cs:93-121 | The loop returns the name `ChosenName` specifies. A free base name is returned as it is. A name other than `Default` is free. |
| FileNames.ExampleEmptyFolder | PasteEx/Forms/FormMain.cs:95-111 | In an empty folder the name is `Clipboard_20240101`. |
| FileNames.ExampleOneTaken | PasteEx/Forms/FormMain.cs:101-111 | When `Clipboard_20240101.png` exists, the name is `Clipboard_20240101 (1)`. |
| DisplayLocation.TailStart | PasteEx/Forms/FormMain.cs:140-158 | The tail starts at the last `\` that is not the final character, or at 0 when there is none. |
| DisplayLocation.TailStartIs | PasteEx/Forms/FormMain.cs:140-158 | These conditions determine where the tail starts. |
| DisplayLocation.DropNulWidth | PasteEx/Forms/FormMain.cs:166-172 | Skipping `'\0'` characters never widens the tail. |
| DisplayLocation.ShortFormWidth | PasteEx/Forms/FormMain.cs:123-180 | The displayed text is at most 47 bytes wide, and a shortened text is under 47. |
| DisplayLocation.ShortFormUnchangedIff | PasteEx/Forms/FormMain.cs:129-133 | A location is shown unchanged exactly when it fits in 47 bytes. |
| DisplayLocation.ShortFormIdempotent | PasteEx/Forms/FormMain.cs:123-180 | Shortening a displayed text again changes nothing. |
| DisplayLocation.HeadIsProperPrefix | PasteEx/Forms/FormMain.cs:162-178 | The head before the ellipsis is a proper prefix of the location and is narrower than its budget. |
| DisplayLocation.ShortFormKeepsLastSegment | PasteEx/Forms/FormMain.cs:159-174 | When the head gets at least 3 bytes, the text is head, `...`, and the tail without NULs. The head is a proper prefix under `44 - tail` bytes. |
| DisplayLocation.ShortFormTruncates | PasteEx/Forms/FormMain.cs:175-179 | Otherwise the text is a proper prefix under 44 bytes followed by `...`. |
| DisplayLocation.ReversedTwice | PasteEx/Forms/FormMain.cs:155-172 | Reading a string backwards twice gives it back. |
| DisplayLocation.DropNulConcat | PasteEx/Forms/FormMain.cs:166-172 | Skipping NULs distributes over concatenation. |
| DisplayLocation.BufferRoundTrip | PasteEx/Forms/FormMain.cs:141-172 | Storing the tail backwards in the zero-filled buffer and reading it backwards without NULs gives the tail without its NULs. |
| DisplayLocation.CollectTail | PasteEx/Forms/FormMain.cs:137-158 | The backward loop stops at the tail's start, and `tail` is the tail's width. The buffer holds the tail reversed, then zeros. |
| DisplayLocation.RebuildTail | PasteEx/Forms/FormMain.cs:165-172 | The rebuilding loop returns the buffer read backwards with every `'\0'` skipped. |
| DisplayLocation.GenerateDisplayLocation | PasteEx/Forms/FormMain.cs:123-180 | The method returns `ShortForm(location)`. The width, idempotence and shape lemmas above hold of that function. |
| Locations.WithTrailingSeparator | PasteEx/Forms/FormMain.cs:34 | The result ends with `\` and extends its argument by at most that `\`. It is the argument itself exactly when the argument already ends with `\`. |
| Locations.WithTrailingSeparatorIdempotent | PasteEx/Forms/FormMain.cs:389 | Normalising a normalised folder changes nothing. |
| Locations.LastIndexOf | PasteEx/Forms/FormMain.cs:385 | The result is the index of the last occurrence of the character, or -1 when it does not occur. |
| Locations.StripTrailingQuote | PasteEx/Forms/FormMain.cs:384-388 | A final `"` is dropped and nothing else changes. |
| Locations.StripAgreesOnNonEmpty | PasteEx/Forms/FormMain.cs:385-388 | On a non-empty location the code as written gives the intended result. |
| Locations.StripThrowsOnEmpty | PasteEx/Forms/FormMain.cs:385-388 | On the empty location the code as written throws `ArgumentOutOfRangeException`. |
| Locations.TargetFolder | PasteEx/Forms/FormMain.cs:385-389 | The quick-paste folder ends with `\` and extends the location with its quote stripped. |
| Locations.TargetFolderOfQuotedRoot | PasteEx/Forms/FormMain.cs:384-389 | `C:\"` becomes `C:\`. |
| Locations.QuickPasteEx | PasteEx/Forms/FormMain.cs:362-437 | The method takes the decision `QuickPastePlan` specifies. |
| Locations.AnalyzeFailedIff | PasteEx/Forms/FormMain.cs:371-435 | Nothing is attempted exactly when there is neither a file name nor a recognised format. |
| Locations.TargetInFolder | PasteEx/Forms/FormMain.cs:389-414 | A file that is saved or asked about lies inside the normalised folder, and that folder exists. A missing folder is reported exactly when the folder does not exist. |
| Locations.ExplicitNameTarget | PasteEx/Forms/FormMain.cs:396-427 | An explicit name is saved at `folder + fileName`. The user is asked first only when that file exists. |
| Locations.AutoNamedNeverOverwrites | PasteEx/Forms/FormMain.cs:392-414 | While at most 300 files exist, a paste without a name never asks to overwrite. |
| MainForm.FormMain.constructor | PasteEx/Forms/FormMain.cs:52-57 | The form opens on the location with a trailing `\`, showing its short form. |
| MainForm.FormMain.SetCurrentLocation | PasteEx/Forms/FormMain.cs:32-37 | The folder gains a trailing `\` if it lacks one, and the tool tip shows it in full. The status bar shows its short form, at most 47 bytes wide. Nothing else changes. |
| MainForm.FormMain.Load | PasteEx/Forms/FormMain.cs:63-88 | The first format is selected, or the status bar shows the no-format notice. The generated name goes into the name box and is remembered, and its file does not exist unless the name is `Default`. |
| MainForm.FormMain.ExtensionChanged | PasteEx/Forms/FormMain.cs:291-299 | The name is generated again for the new format only while the name box holds the last generated name. Otherwise the name and the remembered name are unchanged. |
| MainForm.FormMain.SaveTarget | PasteEx/Forms/FormMain.cs:218-221 | The save path is folder, name, `.` and format with no doubled `\`. The user is asked first exactly when that file exists. |

## Left out

- User interface: the dialogs, the answers to them, enabling and disabling
  controls, the settings and the tray icon are not modelled. The clipboard
  analysis (`ClipboardData.Analyze`) and saving are not modelled either. The
  list of recognised formats is a parameter.
- Monitor mode, hot keys, `GetActiveExplorerLocation` and
  `ChangeTsslCurrentLocation` are outside the name and path logic and are not
  modelled.
- Exiting the process is not modelled. `FormMain_Load` exits when no format
  is recognised and the user declines. The model follows the branch where
  the user accepts: the status bar shows a notice and a name is still
  generated.
- The parameterless constructor opens on the desktop folder. That folder is
  what the model's constructor is given.
- FileNames.GenerateFileName: the date is the `today` parameter, already
  formatted as `yyyyMMdd`. `File.Exists` is membership in a set of existing
  paths. Files created while the loop runs are not modelled.
- DisplayWidth.ByteCount: a code page has 1- and 2-byte characters only.
  A multi-byte code page such as UTF-8 as the system code page is not
  modelled. There, a whole-string byte count could exceed the per-character
  count of 2.
- DisplayWidth.Width: the whole-string byte count is the sum of the
  per-character counts. Surrogate pairs and characters the code page cannot
  encode (replaced by `?`) are not distinguished.
- Locations.WithTrailingSeparator: `EndsWith("\\")` is the .NET Framework's
  culture-sensitive comparison. It is modelled as an ordinal test of the last
  character.
- Locations.QuickPasteEx: the decision stops short of the answer to the
  overwrite question and of the save. An empty `fileName` stands for a
  missing one too.
- Locations.QuickPasteEx: a `null` location is not modelled. With a file
  name or a recognised format it throws `NullReferenceException` at the
  quote test (FormMain.cs:385). Without either, the analyze-failed warning is
  shown and nothing throws (FormMain.cs:430-435).
- Locations.QuickPasteEx: the extension `Path.GetExtension(fileName)` only
  feeds the format passed to the save, so it is not modelled. The argument
  exception it throws on invalid path characters is not modelled either.
- Locations.QuickPasteEx uses the corrected quote stripping (see Findings).
  It therefore does not throw on an empty location.
- Locations.QuickPasteEx: `Console.WriteLine` and the final
  `allDone.WaitOne()` (FormMain.cs:436) are not modelled. Only a completed
  save sets `allDone`. After the analyze-failed warning, the missing-folder
  warning or a Cancel answer to the overwrite question, no save starts, so
  as written the call would block there. The model ends those cases with
  `AnalyzeFailed`, `FolderMissing` or `ConfirmOverwrite` as if the call
  returned.

## Findings

| source | as written | input that shows it | evidently intended | confidence | as-written member | corrected member |
|---|---|---|---|---|---|---|
| PasteEx/Forms/FormMain.cs:385-388 | The location is cut to `Substring(0, Length - 1)` whenever `LastIndexOf('"')` equals `Length - 1`. | `QuickPasteEx("", null)` while the clipboard holds a recognised format: `"".LastIndexOf('"')` is -1, which equals `"".Length - 1`, so `Substring(0, -1)` throws `ArgumentOutOfRangeException`. | Drop a final `"` only when the location is non-empty and its last character is `"`. | not executed | Locations.StripTrailingQuoteAsWritten, Locations.StripThrowsOnEmpty | Locations.StripTrailingQuote, Locations.StripAgreesOnNonEmpty |
