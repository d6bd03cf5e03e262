/** `MethodContextExporter`: the path mapping of report artifacts, the
    click-path type mapping, and the file records written for the
    screenshots and videos of a method context. */
module MethodContextExporter {
  import opened Wrappers
  import opened Strings

  // ------------------------------------------------------- mapArtifactsPath

  /** The `while (path.startsWith("/"))` loop. */
  function StripLeadingSlashes(s: string): (r: string)
    ensures |r| <= |s| && r == s[|s| - |r|..]
    ensures |r| == 0 || r[0] != '/'
    ensures forall i :: 0 <= i < |s| - |r| ==> s[i] == '/'
    decreases |s|
  {
    if |s| > 0 && s[0] == '/' then StripLeadingSlashes(s[1..]) else s
  }

  /** `absolutePath.replace(reportRoot, "")`: Java's `replace` with an empty
      target inserts the empty replacement between characters, which leaves
      the path as it is. */
  function RemoveReportRoot(absolutePath: string, reportRoot: string): string {
    if |reportRoot| == 0 then absolutePath else ReplaceAll(absolutePath, reportRoot, "")
  }

  /** `mapArtifactsPath`: drop every occurrence of the final report
      directory, turn backslashes into slashes, drop leading slashes. */
  function MapArtifactsPath(absolutePath: string, reportRoot: string): (path: string)
    ensures |path| == 0 || path[0] != '/'
    ensures '\\' !in path
  {
    var replaced := ReplaceChar(RemoveReportRoot(absolutePath, reportRoot), '\\', '/');
    assert '\\' !in replaced by {
      forall i | 0 <= i < |replaced| ensures replaced[i] != '\\' {
      }
    }
    StripLeadingSlashes(replaced)
  }

  /** A relative path with forward slashes only, in which the report root
      does not occur, is returned unchanged. */
  lemma MapArtifactsPathKeepsRelativePaths(path: string, reportRoot: string)
    requires '\\' !in path
    requires |path| == 0 || path[0] != '/'
    requires |reportRoot| == 0 || !Contains(path, reportRoot)
    ensures MapArtifactsPath(path, reportRoot) == path
  {
    if |reportRoot| > 0 {
      ReplaceAllAbsent(path, reportRoot, "");
    }
    var replaced := ReplaceChar(path, '\\', '/');
    assert replaced == path by {
      forall i | 0 <= i < |path| ensures replaced[i] == path[i] {
        assert path[i] in path;
      }
    }
  }

  /** Every occurrence of the report root is removed, wherever it sits:
      a path made of parts separated by the root (none of which holds the
      root's first character) maps to the parts run together. */
  lemma MapArtifactsPathRemovesEveryOccurrence(parts: seq<string>, reportRoot: string)
    requires |reportRoot| > 0
    requires forall k :: 0 <= k < |parts| ==> reportRoot[0] !in parts[k]
    ensures MapArtifactsPath(Join(reportRoot, parts), reportRoot)
            == StripLeadingSlashes(ReplaceChar(Join("", parts), '\\', '/'))
  {
    ReplaceSeparators(parts, reportRoot, "");
  }

  /** Mapping twice is mapping once when the root cannot reappear: the
      result is already a forward-slash path without a leading slash. */
  lemma MapArtifactsPathIdempotent(absolutePath: string, reportRoot: string)
    requires |reportRoot| == 0 || !Contains(MapArtifactsPath(absolutePath, reportRoot), reportRoot)
    ensures MapArtifactsPath(MapArtifactsPath(absolutePath, reportRoot), reportRoot)
            == MapArtifactsPath(absolutePath, reportRoot)
  {
    MapArtifactsPathKeepsRelativePaths(MapArtifactsPath(absolutePath, reportRoot), reportRoot);
  }

  // ------------------------------------------------------- click-path events

  /** The type of a recorded click-path event; `Unlisted` stands for any
      further constant of the enum. */
  datatype ClickPathEventType = Window | Click | Value | Page | Url | Unlisted(name: string)

  /** The report model's `PClickPathEventType`. */
  datatype PClickPathEventType = PNotSet | PWindow | PClick | PValue | PPage | PUrl

  datatype ClickPathEvent = ClickPathEvent(eventType: ClickPathEventType, subject: string, sessionId: string)

  datatype PClickPathEvent = PClickPathEvent(eventType: PClickPathEventType, subject: string, sessionId: string)

  /** The `switch` of `prepareTestStepAction`. */
  function MapEventType(t: ClickPathEventType): (p: PClickPathEventType)
    ensures p == PNotSet <==> t.Unlisted?
  {
    match t
    case Window => PWindow
    case Click => PClick
    case Value => PValue
    case Page => PPage
    case Url => PUrl
    case Unlisted(_) => PNotSet
  }

  /** The report type read back as a recorded type; `PNotSet` has none. */
  function EventTypeOf(p: PClickPathEventType): (t: Option<ClickPathEventType>)
    ensures t.None? <==> p == PNotSet
  {
    match p
    case PNotSet => None
    case PWindow => Some(Window)
    case PClick => Some(Click)
    case PValue => Some(Value)
    case PPage => Some(Page)
    case PUrl => Some(Url)
  }

  /** Every listed type maps to the constant of the same name, so the
      mapping loses nothing but the unlisted names. */
  lemma MapEventTypeRoundTrip(t: ClickPathEventType)
    ensures !t.Unlisted? ==> EventTypeOf(MapEventType(t)) == Some(t)
    ensures t.Unlisted? ==> EventTypeOf(MapEventType(t)) == None
  {
  }

  /** Two distinct listed types stay distinct. */
  lemma MapEventTypeInjective(t: ClickPathEventType, u: ClickPathEventType)
    requires !t.Unlisted? && !u.Unlisted? && MapEventType(t) == MapEventType(u)
    ensures t == u
  {
    MapEventTypeRoundTrip(t);
    MapEventTypeRoundTrip(u);
  }

  function ExportClickPathEvents(events: seq<ClickPathEvent>): (r: seq<PClickPathEvent>)
    ensures |r| == |events|
    ensures forall k :: 0 <= k < |events| ==>
              r[k].eventType == MapEventType(events[k].eventType)
              && r[k].subject == events[k].subject && r[k].sessionId == events[k].sessionId
  {
    seq(|events|, k requires 0 <= k < |events| =>
      PClickPathEvent(MapEventType(events[k].eventType), events[k].subject, events[k].sessionId))
  }

  // ------------------------------------------------------------ file records

  const MIME_PNG: string := "image/png"
  const MIME_PLAIN_TEXT: string := "text/plain; charset=utf-8"
  const MIME_WEBM: string := "video/webm"
  const SOURCES_REF_ID: string := "sourcesRefId"

  /** `new java.io.File(dir, name).getPath()` on a Unix file system. */
  function FilePath(dir: string, name: string): string {
    dir + "/" + name
  }

  datatype Screenshot = Screenshot(filename: string, sourceFilename: string, meta: map<string, string>)

  datatype FileRecord = FileRecord(id: string, relativePath: string, mimetype: string, meta: map<string, string>)

  /** Where the exporter writes artifacts; the directories are absolute, so
      `getAbsolutePath` and `getPath` agree. */
  datatype Directories = Directories(reportRoot: string, targetScreenshotDir: string, targetVideoDir: string)

  /** The image record of a screenshot: its meta entries plus
      `sourcesRefId`, which `putMeta` sets after `putAllMeta`. */
  function ImageRecord(dirs: Directories, s: Screenshot, screenshotId: string, sourcesRefId: string): (r: FileRecord)
    ensures SOURCES_REF_ID in r.meta && r.meta[SOURCES_REF_ID] == sourcesRefId
    ensures forall key :: key in s.meta && key != SOURCES_REF_ID ==> key in r.meta && r.meta[key] == s.meta[key]
  {
    FileRecord(screenshotId, FilePath(dirs.targetScreenshotDir, s.filename), MIME_PNG, s.meta[SOURCES_REF_ID := sourcesRefId])
  }

  /** The sources record of a screenshot, built from `sourceName`. */
  function SourcesRecord(dirs: Directories, sourceName: string, sourcesRefId: string): FileRecord {
    FileRecord(sourcesRefId, MapArtifactsPath(FilePath(dirs.targetScreenshotDir, sourceName), dirs.reportRoot), MIME_PLAIN_TEXT, map[])
  }

  /** Record `i` of the file stream: the image record of screenshot `i / 2`
      at even positions, its sources record at odd ones. */
  function ScreenshotFile(dirs: Directories, screenshots: seq<Screenshot>, ids: seq<string>, sourceName: Screenshot -> string, i: nat)
    : FileRecord
    requires |ids| == 2 * |screenshots| && i < 2 * |screenshots|
  {
    var k := i / 2;
    if i % 2 == 0 then ImageRecord(dirs, screenshots[k], ids[2 * k], ids[2 * k + 1])
    else SourcesRecord(dirs, sourceName(screenshots[k]), ids[2 * k + 1])
  }

  lemma Halves(k: nat)
    ensures (2 * k) / 2 == k && (2 * k) % 2 == 0 && (2 * k + 1) / 2 == k && (2 * k + 1) % 2 == 1
  {
  }

  /** Screenshot `k` gives records `2k` and `2k + 1`. */
  lemma ScreenshotFilePair(dirs: Directories, screenshots: seq<Screenshot>, ids: seq<string>, sourceName: Screenshot -> string, k: nat)
    requires |ids| == 2 * |screenshots| && k < |screenshots|
    ensures ScreenshotFile(dirs, screenshots, ids, sourceName, 2 * k) == ImageRecord(dirs, screenshots[k], ids[2 * k], ids[2 * k + 1])
    ensures ScreenshotFile(dirs, screenshots, ids, sourceName, 2 * k + 1) == SourcesRecord(dirs, sourceName(screenshots[k]), ids[2 * k + 1])
  {
    Halves(k);
  }

  /** The screenshot part of `prepareTestStepAction`, with the name from
      which the sources record is built given as `sourceName`. `ids` are the
      two fresh ids drawn per screenshot, screenshot id first. The first
      component is what goes to the file consumer, the second the
      screenshot ids of the step. */
  function ExportScreenshotsWith(dirs: Directories, screenshots: seq<Screenshot>, ids: seq<string>, sourceName: Screenshot -> string)
    : (r: (seq<FileRecord>, seq<string>))
    requires |ids| == 2 * |screenshots|
    ensures |r.0| == 2 * |screenshots| && |r.1| == |screenshots|
    ensures forall k :: 0 <= k < |screenshots| ==> r.0[2 * k] == ImageRecord(dirs, screenshots[k], ids[2 * k], ids[2 * k + 1])
    ensures forall k :: 0 <= k < |screenshots| ==> r.0[2 * k + 1] == SourcesRecord(dirs, sourceName(screenshots[k]), ids[2 * k + 1])
    ensures forall k :: 0 <= k < |screenshots| ==> r.1[k] == ids[2 * k]
  {
    var n := |screenshots|;
    var files := seq(2 * n, i requires 0 <= i < 2 * n => ScreenshotFile(dirs, screenshots, ids, sourceName, i));
    forall k | 0 <= k < n
      ensures files[2 * k] == ImageRecord(dirs, screenshots[k], ids[2 * k], ids[2 * k + 1])
      ensures files[2 * k + 1] == SourcesRecord(dirs, sourceName(screenshots[k]), ids[2 * k + 1])
    {
      assert files[2 * k] == ScreenshotFile(dirs, screenshots, ids, sourceName, 2 * k);
      assert files[2 * k + 1] == ScreenshotFile(dirs, screenshots, ids, sourceName, 2 * k + 1);
      ScreenshotFilePair(dirs, screenshots, ids, sourceName, k);
    }
    (files, seq(n, k requires 0 <= k < n => ids[2 * k]))
  }

  /** As written: the sources record is built from `screenshot.filename`. */
  function ExportScreenshotsAsWritten(dirs: Directories, screenshots: seq<Screenshot>, ids: seq<string>)
    : (r: (seq<FileRecord>, seq<string>))
    requires |ids| == 2 * |screenshots|
    ensures |r.0| == 2 * |screenshots| && |r.1| == |screenshots|
    ensures forall k :: 0 <= k < |screenshots| ==>
              r.0[2 * k + 1].relativePath
              == MapArtifactsPath(FilePath(dirs.targetScreenshotDir, screenshots[k].filename), dirs.reportRoot)
  {
    ExportScreenshotsWith(dirs, screenshots, ids, (s: Screenshot) => s.filename)
  }

  /** Corrected: the sources record is built from `screenshot.sourceFilename`. */
  function ExportScreenshots(dirs: Directories, screenshots: seq<Screenshot>, ids: seq<string>)
    : (r: (seq<FileRecord>, seq<string>))
    requires |ids| == 2 * |screenshots|
    ensures |r.0| == 2 * |screenshots| && |r.1| == |screenshots|
    ensures forall k :: 0 <= k < |screenshots| ==>
              r.0[2 * k + 1].relativePath
              == MapArtifactsPath(FilePath(dirs.targetScreenshotDir, screenshots[k].sourceFilename), dirs.reportRoot)
  {
    ExportScreenshotsWith(dirs, screenshots, ids, (s: Screenshot) => s.sourceFilename)
  }

  /** Each screenshot yields its image record followed by its sources
      record; the image record points at the sources record through its
      `sourcesRefId` meta entry, and the step lists only image ids. */
  lemma ScreenshotRecordsLinked(dirs: Directories, screenshots: seq<Screenshot>, ids: seq<string>, k: nat)
    requires |ids| == 2 * |screenshots| && k < |screenshots|
    ensures var r := ExportScreenshots(dirs, screenshots, ids);
            r.0[2 * k].id == r.1[k] == ids[2 * k]
            && r.0[2 * k + 1].id == ids[2 * k + 1]
            && SOURCES_REF_ID in r.0[2 * k].meta
            && r.0[2 * k].meta[SOURCES_REF_ID] == r.0[2 * k + 1].id
            && r.0[2 * k].mimetype == MIME_PNG
            && r.0[2 * k + 1].mimetype == MIME_PLAIN_TEXT
            && r.0[2 * k].relativePath == FilePath(dirs.targetScreenshotDir, screenshots[k].filename)
  {
    var r := ExportScreenshotsWith(dirs, screenshots, ids, (s: Screenshot) => s.sourceFilename);
    assert ExportScreenshots(dirs, screenshots, ids) == r;
    assert r.0[2 * k] == ImageRecord(dirs, screenshots[k], ids[2 * k], ids[2 * k + 1]);
    assert r.0[2 * k + 1] == SourcesRecord(dirs, screenshots[k].sourceFilename, ids[2 * k + 1]);
  }

  /** An artifact below the report root maps to its path relative to the
      root. */
  lemma MapArtifactBelowRoot(reportRoot: string, relative: string)
    requires |reportRoot| > 0
    requires !Contains("/" + relative, reportRoot)
    requires '\\' !in relative && (|relative| == 0 || relative[0] != '/')
    ensures MapArtifactsPath(reportRoot + "/" + relative, reportRoot) == relative
  {
    var rest := "/" + relative;
    assert reportRoot + "/" + relative == reportRoot + rest;
    ReplaceAtStart(reportRoot, rest, "");
    ReplaceAllAbsent(rest, reportRoot, "");
    assert RemoveReportRoot(reportRoot + "/" + relative, reportRoot) == rest;
    assert '\\' !in rest by {
      assert rest[0] == '/' && rest[1..] == relative;
    }
    ReplaceCharAbsent(rest, '\\', '/');
    assert StripLeadingSlashes(rest) == StripLeadingSlashes(rest[1..]);
    assert rest[1..] == relative;
  }

  /** A relative file name below the report root: no backslash, no
      leading slash, and no room for the root to occur after a slash. */
  predicate BelowRoot(reportRoot: string, relative: string) {
    |reportRoot| > 0 && !Contains("/" + relative, reportRoot)
    && '\\' !in relative && (|relative| == 0 || relative[0] != '/')
  }

  /** For screenshots stored below the report root, the as-written sources
      record names the image file, while the corrected one names the
      sources file. */
  lemma SourcesRecordNamesImage(reportRoot: string, subDir: string, s: Screenshot, screenshotId: string, sourcesRefId: string)
    requires BelowRoot(reportRoot, subDir + "/" + s.filename)
    requires BelowRoot(reportRoot, subDir + "/" + s.sourceFilename)
    ensures var dirs := Directories(reportRoot, reportRoot + "/" + subDir, reportRoot + "/videos");
            ExportScreenshotsAsWritten(dirs, [s], [screenshotId, sourcesRefId]).0[1].relativePath == subDir + "/" + s.filename
            && ExportScreenshots(dirs, [s], [screenshotId, sourcesRefId]).0[1].relativePath == subDir + "/" + s.sourceFilename
  {
    var dirs := Directories(reportRoot, reportRoot + "/" + subDir, reportRoot + "/videos");
    var ids := [screenshotId, sourcesRefId];
    var asWritten := ExportScreenshotsAsWritten(dirs, [s], ids);
    var corrected := ExportScreenshots(dirs, [s], ids);
    assert asWritten.0[2 * 0 + 1].relativePath == MapArtifactsPath(FilePath(dirs.targetScreenshotDir, s.filename), reportRoot);
    assert corrected.0[2 * 0 + 1].relativePath == MapArtifactsPath(FilePath(dirs.targetScreenshotDir, s.sourceFilename), reportRoot);
    FileBelowRoot(reportRoot, subDir, s.filename);
    FileBelowRoot(reportRoot, subDir, s.sourceFilename);
  }

  /** A file in a sub-directory of the report root maps to its path
      relative to the root. */
  lemma FileBelowRoot(reportRoot: string, subDir: string, name: string)
    requires BelowRoot(reportRoot, subDir + "/" + name)
    ensures MapArtifactsPath(FilePath(reportRoot + "/" + subDir, name), reportRoot) == subDir + "/" + name
  {
    assert FilePath(reportRoot + "/" + subDir, name) == reportRoot + "/" + (subDir + "/" + name);
    MapArtifactBelowRoot(reportRoot, subDir + "/" + name);
  }

  /** A concrete case: with the report in `/report`, screenshot `a.png`
      and sources file `a.html`, the as-written sources record is the
      plain-text record `screenshots/a.png`. */
  lemma SourcesRecordCounterexample()
    ensures var dirs := Directories("/report", "/report" + "/" + "screenshots", "/report" + "/videos");
            var s := Screenshot("a.png", "a.html", map[]);
            ExportScreenshotsAsWritten(dirs, [s], ["i", "j"]).0[1].relativePath == "screenshots" + "/" + "a.png"
            && ExportScreenshots(dirs, [s], ["i", "j"]).0[1].relativePath == "screenshots" + "/" + "a.html"
  {
    var s := Screenshot("a.png", "a.html", map[]);
    FixedNamesBelowRoot();
    SourcesRecordNamesImage("/report", "screenshots", s, "i", "j");
  }

  lemma FixedNamesBelowRoot()
    ensures BelowRoot("/report", "screenshots" + "/" + "a.png")
    ensures BelowRoot("/report", "screenshots" + "/" + "a.html")
  {
    assert "/" + ("screenshots" + "/" + "a.png") == "/screenshots/a.png";
    assert "/" + ("screenshots" + "/" + "a.html") == "/screenshots/a.html";
    SecondCharRulesOut("/screenshots/a.png", "/report");
    SecondCharRulesOut("/screenshots/a.html", "/report");
  }

  // ------------------------------------------------------------------ videos

  /** The video part of `prepareMethodContext`: each video adds one fresh
      id to the builder and one record carrying that id. */
  function ExportVideos(targetVideoDir: string, videoFilenames: seq<string>, ids: seq<string>)
    : (r: (seq<string>, seq<FileRecord>))
    requires |ids| == |videoFilenames|
    ensures r.0 == ids
    ensures |r.1| == |videoFilenames|
    ensures forall k :: 0 <= k < |videoFilenames| ==>
              r.1[k] == FileRecord(ids[k], FilePath(targetVideoDir, videoFilenames[k]), MIME_WEBM, map[])
  {
    (ids, seq(|videoFilenames|, k requires 0 <= k < |videoFilenames| =>
       FileRecord(ids[k], FilePath(targetVideoDir, videoFilenames[k]), MIME_WEBM, map[])))
  }

  /** The builder's video ids are exactly the ids of the emitted records. */
  lemma VideoIdsMatchRecords(targetVideoDir: string, videoFilenames: seq<string>, ids: seq<string>)
    requires |ids| == |videoFilenames|
    ensures var r := ExportVideos(targetVideoDir, videoFilenames, ids);
            forall k :: 0 <= k < |r.0| ==> r.1[k].id == r.0[k]
  {
  }

  // --------------------------------------------------------- custom contexts

  /** `customContextJson` is set only for a non-empty list; the encoder is
      a parameter. */
  function CustomContextJson(customContexts: seq<string>, toJson: seq<string> -> string): (r: Option<string>)
    ensures r.None? <==> |customContexts| == 0
    ensures r.Some? ==> r.value == toJson(customContexts)
  {
    if |customContexts| > 0 then Some(toJson(customContexts)) else None
  }
}
