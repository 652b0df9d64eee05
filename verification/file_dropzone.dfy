/** The file drop zone: which picker a click opens, how picked paths become
    file records, the `accept` string of the browser fallback input, the
    options handed to the drop handler, and the drop guard. */
module FileDropzone {
  import opened Wrappers
  import opened Text
  import opened PageCommon

  const DefaultMaxFiles := 1
  /** 5 GiB. */
  const DefaultMaxSize := 5 * 1024 * 1024 * 1024
  const DefaultFileName := "unknown_file"
  const PickedMimeType := "application/octet-stream"
  const DefaultFolderName := "Selected Folder"

  datatype SelectMode = FilesMode | FolderMode

  /** One entry of the `accept` object: a MIME type and its extensions, in
      the object's insertion order. */
  datatype AcceptEntry = AcceptEntry(mimeType: string, extensions: seq<string>)

  /** The component's props; `None` is an omitted prop, which takes its
      default. */
  datatype DropzoneProps = DropzoneProps(
    accept: Option<seq<AcceptEntry>>,
    maxFiles: Option<int>,
    maxSize: Option<int>,
    multiple: Option<bool>,
    selectMode: Option<SelectMode>,
    hasFolderCallback: bool)

  function Mode(p: DropzoneProps): SelectMode {
    p.selectMode.GetOr(FilesMode)
  }

  function Multiple(p: DropzoneProps): bool {
    p.multiple.GetOr(false)
  }

  /** A dropped or picked file: the file-like object and its MIME type. */
  datatype DropFile = DropFile(file: FileRef, mimeType: string)

  // ------------------------------------------------------- drop options

  /** The options given to the drop handler. */
  datatype DropOptions = DropOptions(accept: Option<seq<AcceptEntry>>, maxFiles: Option<int>, maxSize: int,
                                     multiple: bool, noClick: bool)

  /** In folder mode there is no file limit and several files are always
      allowed; otherwise the props (or their defaults) are passed on. */
  function Options(p: DropzoneProps): (r: DropOptions)
    ensures Mode(p) == FolderMode ==> r.maxFiles.None? && r.multiple
    ensures Mode(p) == FilesMode ==> r.maxFiles == Some(p.maxFiles.GetOr(DefaultMaxFiles)) && r.multiple == Multiple(p)
    ensures r.maxSize == p.maxSize.GetOr(DefaultMaxSize) && r.accept == p.accept && r.noClick
  {
    DropOptions(p.accept, if Mode(p) == FolderMode then None else Some(p.maxFiles.GetOr(DefaultMaxFiles)),
                p.maxSize.GetOr(DefaultMaxSize), if Mode(p) == FolderMode then true else Multiple(p), true)
  }

  /** With every prop omitted the zone takes one file of at most 5 GiB;
      asking for folder mode lifts the limit whatever `maxFiles` and
      `multiple` say. */
  lemma DefaultOptions(p: DropzoneProps)
    ensures var d := Options(DropzoneProps(None, None, None, None, None, p.hasFolderCallback));
            d.maxFiles == Some(1) && d.maxSize == 5368709120 && !d.multiple
    ensures var f := Options(p.(selectMode := Some(FolderMode)));
            f.maxFiles.None? && f.multiple && f.maxSize == Options(p).maxSize
  {
  }

  // ------------------------------------------------------- picked paths

  /** The record made from a picked path: named after its last segment (or
      `unknown_file`), carrying the path, typed as an octet stream. */
  function PathToFile(path: string): (r: DropFile)
    ensures r.file == PickedFile(path, DefaultFileName) && r.mimeType == PickedMimeType
  {
    DropFile(PickedFile(path, DefaultFileName), PickedMimeType)
  }

  /** `filePaths.map(...)`: one record per path, in the same order. */
  function PathsToFiles(paths: seq<string>): (r: seq<DropFile>)
    ensures |r| == |paths|
    ensures forall i :: 0 <= i < |r| ==> r[i] == PathToFile(paths[i])
  {
    seq(|paths|, i requires 0 <= i < |paths| => PathToFile(paths[i]))
  }

  /** The picked paths can be read back from the records, in order, and
      each record is named by the last segment of its own path. */
  lemma PathsRoundTrip(paths: seq<string>)
    ensures var r := PathsToFiles(paths);
            && seq(|r|, i requires 0 <= i < |r| => r[i].file.path.value) == paths
            && (forall i :: 0 <= i < |r| ==> r[i].file.name == Basename(paths[i], DefaultFileName))
            && (forall i :: 0 <= i < |r| && paths[i] != "" ==> BackendPath(r[i].file) == paths[i])
  {
    var r := PathsToFiles(paths);
    forall i | 0 <= i < |r| && paths[i] != ""
      ensures BackendPath(r[i].file) == paths[i]
    {
      PickedFileRoundTrip(paths[i], DefaultFileName);
    }
  }

  // -------------------------------------------------- the accept string

  /** `extensions.length > 0 ? extensions.join(',') : mimeType`. */
  function EntryString(e: AcceptEntry): string {
    if |e.extensions| > 0 then Join(e.extensions, ",") else e.mimeType
  }

  function EntryStrings(entries: seq<AcceptEntry>): (r: seq<string>)
    ensures |r| == |entries|
  {
    if |entries| == 0 then [] else [EntryString(entries[0])] + EntryStrings(entries[1..])
  }

  /** The input's `accept` attribute: the entry strings joined by `,`,
      which is every entry's tokens in one comma-separated list. */
  function AcceptString(entries: seq<AcceptEntry>): (r: string)
    ensures r == Join(AllTokens(entries), ",")
  {
    AcceptStringFlat(entries);
    Join(EntryStrings(entries), ",")
  }

  /** The tokens an entry contributes: its extensions, or its MIME type when
      it has none. */
  function EntryTokens(e: AcceptEntry): (r: seq<string>)
    ensures |r| >= 1
  {
    if |e.extensions| > 0 then e.extensions else [e.mimeType]
  }

  /** Every entry's tokens, in order. */
  function AllTokens(entries: seq<AcceptEntry>): (r: seq<string>)
    ensures |entries| > 0 ==> |r| >= |entries|
  {
    if |entries| == 0 then [] else EntryTokens(entries[0]) + AllTokens(entries[1..])
  }

  /** The nested join is one flat join of all the tokens. */
  lemma {:induction false} AcceptStringFlat(entries: seq<AcceptEntry>)
    ensures Join(EntryStrings(entries), ",") == Join(AllTokens(entries), ",")
    decreases |entries|
  {
    if |entries| == 1 {
      assert EntryStrings(entries) == [EntryString(entries[0])];
      assert AllTokens(entries) == EntryTokens(entries[0]) + [];
      assert EntryTokens(entries[0]) + [] == EntryTokens(entries[0]);
    } else if |entries| > 1 {
      var rest := entries[1..];
      AcceptStringFlat(rest);
      var ss := EntryStrings(entries);
      assert ss[1..] == EntryStrings(rest);
      assert Join(ss, ",") == EntryString(entries[0]) + "," + Join(EntryStrings(rest), ",");
      assert EntryString(entries[0]) == Join(EntryTokens(entries[0]), ",");
      JoinAppend(EntryTokens(entries[0]), AllTokens(rest), ",");
    }
  }

  /** When no MIME type or extension contains a comma, splitting the accept
      string at commas gives back exactly the tokens, in order. */
  lemma AcceptTokensRecovered(entries: seq<AcceptEntry>)
    requires |entries| > 0
    requires forall k :: 0 <= k < |AllTokens(entries)| ==> NoneOf(AllTokens(entries)[k], {','})
    ensures Split(AcceptString(entries), {','}) == AllTokens(entries)
  {
    SplitJoin(AllTokens(entries), ',');
  }

  // ---------------------------------------------------------- a click

  /** Which of the context's pickers exist. */
  datatype Pickers = Pickers(selectDirectory: bool, selectFiles: bool, selectFile: bool)

  datatype Picker = PickDirectory | PickFiles | PickFile | BrowserInput

  /** `handleElectronFileSelect`'s choice: the folder picker in folder mode
      with a folder callback, else the multi-file picker when `multiple`,
      else the single-file picker, else a hidden browser input. */
  function ChoosePicker(p: DropzoneProps, av: Pickers): (r: Picker)
    ensures r == PickDirectory <==> Mode(p) == FolderMode && p.hasFolderCallback && av.selectDirectory
    ensures r == PickFiles <==>
              !(Mode(p) == FolderMode && p.hasFolderCallback && av.selectDirectory) && Multiple(p) && av.selectFiles
    ensures r == PickFile <==>
              && !(Mode(p) == FolderMode && p.hasFolderCallback && av.selectDirectory)
              && !(Multiple(p) && av.selectFiles) && av.selectFile
    ensures r == BrowserInput <==>
              && !(Mode(p) == FolderMode && p.hasFolderCallback && av.selectDirectory)
              && !(Multiple(p) && av.selectFiles) && !av.selectFile
  {
    if Mode(p) == FolderMode && p.hasFolderCallback && av.selectDirectory then PickDirectory
    else if Multiple(p) && av.selectFiles then PickFiles
    else if av.selectFile then PickFile
    else BrowserInput
  }

  /** The context always supplies all three pickers (each alerts when the
      backend lacks it), so a click inside the application never reaches the
      browser fallback. */
  lemma ContextPickersSkipBrowser(p: DropzoneProps)
    ensures ChoosePicker(p, Pickers(true, true, true)) != BrowserInput
    ensures Mode(p) == FilesMode ==>
              ChoosePicker(p, Pickers(true, true, true)) == if Multiple(p) then PickFiles else PickFile
  {
  }

  /** The hidden input of the browser fallback. */
  datatype InputConfig = InputConfig(multiple: bool, directory: bool, accept: Option<string>)

  function BrowserInputConfig(p: DropzoneProps): (r: InputConfig)
    ensures r.multiple == Multiple(p) && r.directory == (Mode(p) == FolderMode)
    ensures r.accept.Some? <==> p.accept.Some?
    ensures p.accept.Some? ==> r.accept.value == AcceptString(p.accept.value)
  {
    InputConfig(Multiple(p), Mode(p) == FolderMode,
                if p.accept.Some? then Some(AcceptString(p.accept.value)) else None)
  }

  /** `webkitRelativePath.split('/')[0] || "Selected Folder"`. */
  function FolderName(f: DropFile): (r: string)
    ensures r != ""
    ensures r == DefaultFolderName || IsPrefix(r, f.file.relativePath.GetOr(""))
  {
    SplitFirstPiece(f.file.relativePath.GetOr(""), {'/'});
    var first := Split(f.file.relativePath.GetOr(""), {'/'})[0];
    if first == "" then DefaultFolderName else first
  }

  /** A file picked from a folder reports the folder: the part of its
      relative path before the first `/`. */
  lemma FolderNameOfRelativePath(f: DropFile, folder: string, rest: string)
    requires folder != "" && NoneOf(folder, {'/'})
    requires f.file.relativePath == Some(folder + "/" + rest)
    ensures FolderName(f) == folder
  {
    var t := "/" + rest;
    ConcatAssoc(folder, "/", rest);
    SplitLeadingSep(t, '/');
    SplitPrefix(folder, t, '/');
    assert folder + "" == folder;
  }

  /** What reaches the parent: nothing, a folder path, or a list of files. */
  datatype Delivery = NoDelivery | FolderSelected(path: string) | FilesSelected(files: seq<DropFile>)

  /** The browser input's `onchange`: in folder mode with a callback and at
      least one file the folder is reported; otherwise every file is
      forwarded, even an empty list. */
  function BrowserChange(p: DropzoneProps, files: Option<seq<DropFile>>): (r: Delivery)
    ensures files.None? ==> r == NoDelivery
    ensures r.FolderSelected? <==> files.Some? && Mode(p) == FolderMode && p.hasFolderCallback && |files.value| > 0
    ensures r.FolderSelected? ==> r.path == FolderName(files.value[0])
    ensures r.FilesSelected? ==> r.files == files.value
  {
    if files.None? then NoDelivery
    else if Mode(p) == FolderMode && p.hasFolderCallback && |files.value| > 0 then FolderSelected(FolderName(files.value[0]))
    else FilesSelected(files.value)
  }

  /** What each picker would answer; only the chosen picker's answer is
      used. */
  datatype Answers = Answers(directory: Option<string>, paths: Option<seq<string>>, path: Option<string>,
                             browserFiles: Option<seq<DropFile>>)

  /** `handleElectronFileSelect`, from the click to what the parent
      receives. */
  function HandleClick(p: DropzoneProps, av: Pickers, ans: Answers): (r: Delivery)
    ensures ChoosePicker(p, av) == PickDirectory ==>
              r == if Truthy(ans.directory) then FolderSelected(ans.directory.value) else NoDelivery
    ensures ChoosePicker(p, av) == PickFiles ==>
              r == if ans.paths.Some? && |ans.paths.value| > 0 then FilesSelected(PathsToFiles(ans.paths.value)) else NoDelivery
    ensures ChoosePicker(p, av) == PickFile ==>
              r == if Truthy(ans.path) then FilesSelected([PathToFile(ans.path.value)]) else NoDelivery
    ensures ChoosePicker(p, av) == BrowserInput ==> r == BrowserChange(p, ans.browserFiles)
    // an Electron picker never delivers an empty list
    ensures ChoosePicker(p, av) != BrowserInput && r.FilesSelected? ==> |r.files| > 0
  {
    match ChoosePicker(p, av)
    case PickDirectory => if Truthy(ans.directory) then FolderSelected(ans.directory.value) else NoDelivery
    case PickFiles =>
      if ans.paths.Some? && |ans.paths.value| > 0 then FilesSelected(PathsToFiles(ans.paths.value)) else NoDelivery
    case PickFile => if Truthy(ans.path) then FilesSelected([PathToFile(ans.path.value)]) else NoDelivery
    case BrowserInput => BrowserChange(p, ans.browserFiles)
  }

  // ------------------------------------------------------------ a drop

  /** After a drop: the drag highlight and what is forwarded. */
  datatype DropResult = DropResult(dragOver: bool, forwarded: Option<seq<DropFile>>)

  /** `onDrop`: the highlight is cleared and the accepted files are forwarded
      only when there is at least one. */
  function OnDrop(accepted: seq<DropFile>): (r: DropResult)
    ensures !r.dragOver
    ensures r.forwarded.Some? <==> |accepted| > 0
    ensures r.forwarded.Some? ==> r.forwarded.value == accepted
  {
    DropResult(false, if |accepted| > 0 then Some(accepted) else None)
  }

  /** The drop handler and the browser input agree: several files are
      accepted by a drop exactly when the input takes several files or a
      folder, and the drop has no file limit exactly in folder mode. */
  lemma DropAndInputAgree(p: DropzoneProps)
    ensures Options(p).multiple == (BrowserInputConfig(p).multiple || BrowserInputConfig(p).directory)
    ensures Options(p).maxFiles.None? <==> BrowserInputConfig(p).directory
  {
  }

  /** Outside folder reporting, dropping files and choosing the same files
      in the browser input deliver the same list; a drop just never
      delivers an empty one. */
  lemma DropAndBrowseDeliverSame(p: DropzoneProps, files: seq<DropFile>)
    requires Mode(p) == FilesMode || !p.hasFolderCallback
    ensures BrowserChange(p, Some(files)) == FilesSelected(files)
    ensures OnDrop(files).forwarded.Some? ==> BrowserChange(p, OnDrop(files).forwarded) == FilesSelected(files)
    ensures OnDrop(files).forwarded.None? <==> files == []
  {
  }
}
