/** The folder a paste goes to, and the decision `QuickPasteEx` takes for a
    paste without the dialog: the location given on the command line or by
    the active Explorer window loses a trailing `"` and gains a trailing `\`,
    and the file is either named explicitly or gets the default name. */
module Locations {
  import opened Outcomes
  import opened FileNames

  /** `s.EndsWith("\\")`. */
  predicate EndsWithSeparator(s: string) {
    |s| > 0 && s[|s| - 1] == '\\'
  }

  /** `s.EndsWith("\\") ? s : s + "\\"`, the normalisation applied to every
      folder before a file name is appended to it. */
  function WithTrailingSeparator(s: string): (r: string)
    ensures EndsWithSeparator(r)
    ensures s <= r && |r| <= |s| + 1
    ensures EndsWithSeparator(s) <==> r == s
  {
    if EndsWithSeparator(s) then s else s + "\\"
  }

  /** Normalising twice is normalising once. */
  lemma WithTrailingSeparatorIdempotent(s: string)
    ensures WithTrailingSeparator(WithTrailingSeparator(s)) == WithTrailingSeparator(s)
  {
  }

  /** `s.LastIndexOf(c)`: the index of the last `c`, or -1 when there is none
      (so -1 for the empty string). */
  function LastIndexOf(s: string, c: char): (r: int)
    ensures -1 <= r < |s|
    ensures r >= 0 ==> s[r] == c
    ensures forall i :: r < i < |s| ==> s[i] != c
  {
    if s == [] then -1
    else if s[|s| - 1] == c then |s| - 1
    else LastIndexOf(s[..|s| - 1], c)
  }

  /** The trailing-quote removal as written: when `LastIndexOf('"')` equals
      `Length - 1` the location is cut with `Substring(0, Length - 1)`, which
      throws for a negative length. */
  function StripTrailingQuoteAsWritten(location: string): Result<string> {
    if LastIndexOf(location, '"') == |location| - 1 then
      if |location| - 1 < 0 then Failure(ArgumentOutOfRange) else Success(location[..|location| - 1])
    else Success(location)
  }

  /** The trailing-quote removal as intended: a final `"` (left by a quoted
      drive root such as `"C:\"` on the command line) is dropped. */
  function StripTrailingQuote(location: string): (r: string)
    ensures r <= location && |location| - 1 <= |r|
    ensures r == location <==> !(|location| > 0 && location[|location| - 1] == '"')
  {
    if |location| > 0 && location[|location| - 1] == '"' then location[..|location| - 1] else location
  }

  /** On every non-empty location the code as written does what was intended. */
  lemma StripAgreesOnNonEmpty(location: string)
    requires location != []
    ensures StripTrailingQuoteAsWritten(location) == Success(StripTrailingQuote(location))
  {
  }

  /** On the empty location it throws: `"".LastIndexOf('"')` is -1, which is
      also `"".Length - 1`, and `Substring(0, -1)` is out of range. */
  lemma StripThrowsOnEmpty()
    ensures StripTrailingQuoteAsWritten("") == Failure(ArgumentOutOfRange)
  {
  }

  /** The folder a quick paste writes into. */
  function TargetFolder(location: string): (folder: string)
    ensures EndsWithSeparator(folder)
    ensures StripTrailingQuote(location) <= folder
  {
    WithTrailingSeparator(StripTrailingQuote(location))
  }

  /** A quoted drive root becomes the drive root itself. */
  lemma TargetFolderOfQuotedRoot()
    ensures TargetFolder("C:\\\"") == "C:\\"
  {
    assert StripTrailingQuote("C:\\\"") == "C:\\";
  }

  /** What a quick paste does, short of the confirmation dialog's answer and
      the save itself. */
  datatype Action =
    | AnalyzeFailed             // no clipboard format recognised: a warning, nothing saved
    | FolderMissing(folder: string)  // the target folder does not exist: a warning
    | ConfirmOverwrite(path: string) // the target file exists: the user is asked
    | Save(path: string)        // the file is saved at `path`

  /** The target path: `folder + fileName` for an explicit name, otherwise
      the default name for the first recognised format. */
  function TargetPath(folder: string, fileName: string, formats: seq<string>, today: string, files: set<string>): string
    requires fileName != [] || formats != []
  {
    if fileName == [] then PathOf(folder, ChosenName(folder, formats[0], today, files), formats[0])
    else folder + fileName
  }

  /** The decision `QuickPasteEx` takes. `fileName == ""` stands for a missing
      or empty name; `files` and `folders` are the paths that exist. */
  function QuickPastePlan(location: string, fileName: string, formats: seq<string>, today: string,
                          files: set<string>, folders: set<string>): Action
  {
    if fileName == [] && formats == [] then AnalyzeFailed
    else
      var folder := TargetFolder(location);
      var path := TargetPath(folder, fileName, formats, today, files);
      if folder !in folders then FolderMissing(folder)
      else if path in files then ConfirmOverwrite(path)
      else Save(path)
  }

  /** `QuickPasteEx(location, fileName)`: with an explicit name the format
      list is replaced by that name's extension, so only a paste without a
      name can fail for want of a format. */
  method QuickPasteEx(location: string, fileName: string, formats: seq<string>, today: string,
                      files: set<string>, folders: set<string>) returns (action: Action)
    ensures action == QuickPastePlan(location, fileName, formats, today, files, folders)
  {
    // An explicit name replaces the format list by the one-element list of
    // its extension, which the path does not use.
    var haveFormat := fileName != [] || |formats| > 0;
    if haveFormat {
      var stripped := StripTrailingQuote(location);
      var currentLocation := if EndsWithSeparator(stripped) then stripped else stripped + "\\";
      var path: string;
      if fileName == [] {
        var name := GenerateFileName(currentLocation, formats[0], today, files);
        path := currentLocation + name + "." + formats[0];
      } else {
        path := currentLocation + fileName;
      }
      if currentLocation !in folders {
        action := FolderMissing(currentLocation);
      } else if path in files {
        action := ConfirmOverwrite(path);
      } else {
        action := Save(path);
      }
    } else {
      action := AnalyzeFailed;
    }
  }

  /** Nothing is attempted exactly when there is neither a name nor a
      recognised format. */
  lemma AnalyzeFailedIff(location: string, fileName: string, formats: seq<string>, today: string,
                         files: set<string>, folders: set<string>)
    ensures QuickPastePlan(location, fileName, formats, today, files, folders) == AnalyzeFailed <==>
      fileName == [] && formats == []
  {
  }

  /** Every file a quick paste writes or asks about lies in the normalised
      target folder, and the folder check comes first. */
  lemma TargetInFolder(location: string, fileName: string, formats: seq<string>, today: string,
                       files: set<string>, folders: set<string>)
    ensures var a := QuickPastePlan(location, fileName, formats, today, files, folders);
      (a.Save? || a.ConfirmOverwrite?) ==> TargetFolder(location) <= a.path && TargetFolder(location) in folders
    ensures var a := QuickPastePlan(location, fileName, formats, today, files, folders);
      a.FolderMissing? <==> a != AnalyzeFailed && TargetFolder(location) !in folders
  {
  }

  /** An explicitly named paste into an existing folder writes
      `folder + fileName`, asking first only when that file exists. */
  lemma ExplicitNameTarget(location: string, fileName: string, formats: seq<string>, today: string,
                           files: set<string>, folders: set<string>)
    requires fileName != []
    requires TargetFolder(location) in folders
    ensures var p := TargetFolder(location) + fileName;
      QuickPastePlan(location, fileName, formats, today, files, folders) ==
        if p in files then ConfirmOverwrite(p) else Save(p)
  {
  }

  /** A paste without a name never asks to overwrite while fewer than 301
      files exist: the default name is always free then. */
  lemma AutoNamedNeverOverwrites(location: string, formats: seq<string>, today: string,
                                 files: set<string>, folders: set<string>)
    requires formats != []
    requires |files| <= Bound
    ensures !QuickPastePlan(location, [], formats, today, files, folders).ConfirmOverwrite?
  {
    var folder := TargetFolder(location);
    FallbackNeedsAllFiles(folder, formats[0], today, files);
    ChosenIsFresh(folder, formats[0], today, files);
  }
}
