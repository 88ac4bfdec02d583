/** The editor page's own state rules: the save-status line, the zoom
    buttons, when autosave runs, what a load or a save response does to the
    page, which uploads are accepted, and the name of the exported file.
    Requests, storage and the timer are outside; their results are the
    arguments of the handlers. */
module EditorPage {
  import opened Geometry
  import opened JsText
  import opened TempDocRoute

  datatype SaveStatus = Idle | Saving | Saved | Error

  /** `!sessionId` is false exactly for a non-empty id. */
  predicate HasSession(sessionId: Option<string>) {
    sessionId.Some? && sessionId.value != []
  }

  /** The save-status line. */
  function StatusText(sessionId: Option<string>, saveDisabled: bool, status: SaveStatus): string {
    if !HasSession(sessionId) then "No session"
    else if saveDisabled then "Autosave Off"
    else if status == Saving then "Saving..."
    else if status == Saved then "Saved"
    else if status == Error then "Save failed"
    else "Not saved yet"
  }

  /** Each message is shown exactly in its case, in order of precedence: no
      session first, then autosave off, then the save status. */
  lemma StatusTextPrecedence(sessionId: Option<string>, saveDisabled: bool, status: SaveStatus)
    ensures var t := StatusText(sessionId, saveDisabled, status);
            (t == "No session" <==> !HasSession(sessionId))
            && (t == "Autosave Off" <==> HasSession(sessionId) && saveDisabled)
            && (t == "Saving..." <==> HasSession(sessionId) && !saveDisabled && status == Saving)
            && (t == "Saved" <==> HasSession(sessionId) && !saveDisabled && status == Saved)
            && (t == "Save failed" <==> HasSession(sessionId) && !saveDisabled && status == Error)
            && (t == "Not saved yet" <==> HasSession(sessionId) && !saveDisabled && status == Idle)
  {
    var t := StatusText(sessionId, saveDisabled, status);
    var texts := ["No session", "Autosave Off", "Saving...", "Saved", "Save failed", "Not saved yet"];
    assert texts[0][0] == 'N' && texts[0][1] == 'o' && texts[1][0] == 'A' && texts[2][4] == 'n';
    assert texts[3][4] == 'd' && texts[4][4] == ' ' && texts[5][0] == 'N' && texts[5][1] == 'o' && texts[5][2] == 't';
    assert texts[0][2] == ' ';
  }

  // ------------------------------------------------------------ zoom

  const MinZoom: real := 25.0
  const MaxZoom: real := 200.0
  const ZoomStep: real := 25.0

  function ZoomOut(zoom: real): (r: real)
    ensures r >= MinZoom && r >= zoom - ZoomStep && (r == MinZoom || r == zoom - ZoomStep)
  {
    Max(MinZoom, zoom - ZoomStep)
  }

  function ZoomIn(zoom: real): (r: real)
    ensures r <= MaxZoom && r <= zoom + ZoomStep && (r == MaxZoom || r == zoom + ZoomStep)
  {
    Min(MaxZoom, zoom + ZoomStep)
  }

  /** Away from the limits the two buttons undo each other. */
  lemma ZoomInverse(zoom: real)
    ensures MinZoom + ZoomStep <= zoom <= MaxZoom ==> ZoomIn(ZoomOut(zoom)) == zoom
    ensures MinZoom <= zoom <= MaxZoom - ZoomStep ==> ZoomOut(ZoomIn(zoom)) == zoom
  {
  }

  datatype ZoomClick = In | Out

  function ApplyClicks(zoom: real, clicks: seq<ZoomClick>): real
    decreases |clicks|
  {
    if clicks == [] then zoom
    else ApplyClicks(if clicks[0] == In then ZoomIn(zoom) else ZoomOut(zoom), clicks[1..])
  }

  /** A zoom between 25% and 200% stays there whatever buttons are pressed. */
  lemma {:induction false} ClicksStayInRange(zoom: real, clicks: seq<ZoomClick>)
    requires MinZoom <= zoom <= MaxZoom
    ensures MinZoom <= ApplyClicks(zoom, clicks) <= MaxZoom
    decreases |clicks|
  {
    if clicks != [] {
      ClicksStayInRange(if clicks[0] == In then ZoomIn(zoom) else ZoomOut(zoom), clicks[1..]);
    }
  }

  /** The same button pressed `n` times. */
  function Repeat(click: ZoomClick, n: nat): (r: seq<ZoomClick>)
    ensures |r| == n && forall k :: 0 <= k < n ==> r[k] == click
  {
    seq(n, _ => click)
  }

  /** A zoom above 200% (a stored one, say) enters the range after
      ⌈(z − 200)/25⌉ zoom-out clicks, and stays there after more; from
      200..225 one click suffices. */
  lemma {:induction false} ZoomOutsIntoRange(zoom: real, n: nat)
    requires MinZoom <= zoom <= MaxZoom + ZoomStep * (n as real)
    ensures MinZoom <= ApplyClicks(zoom, Repeat(Out, n)) <= MaxZoom
    decreases n
  {
    if zoom <= MaxZoom {
      ClicksStayInRange(zoom, Repeat(Out, n));
    } else {
      var clicks := Repeat(Out, n);
      assert clicks[0] == Out && clicks[1..] == Repeat(Out, n - 1);
      ZoomOutsIntoRange(ZoomOut(zoom), n - 1);
    }
  }

  /** A zoom below 25% enters the range after ⌈(25 − z)/25⌉ zoom-in clicks,
      and stays there after more; from 0..25 one click suffices. */
  lemma {:induction false} ZoomInsIntoRange(zoom: real, n: nat)
    requires MinZoom - ZoomStep * (n as real) <= zoom <= MaxZoom
    ensures MinZoom <= ApplyClicks(zoom, Repeat(In, n)) <= MaxZoom
    decreases n
  {
    if zoom >= MinZoom {
      ClicksStayInRange(zoom, Repeat(In, n));
    } else {
      var clicks := Repeat(In, n);
      assert clicks[0] == In && clicks[1..] == Repeat(In, n - 1);
      ZoomInsIntoRange(ZoomIn(zoom), n - 1);
    }
  }

  // ------------------------------------------------------------ autosave

  /** Autosave is scheduled only with a session, after the first load, and
      while saving is not switched off. */
  predicate ShouldAutosave(sessionId: Option<string>, isHydrated: bool, saveDisabled: bool) {
    HasSession(sessionId) && isHydrated && !saveDisabled
  }

  /** The fixed document id the page saves under. */
  const PageDocId := "editor-main"

  /** The page's document id passes the route's normalisation unchanged. */
  lemma PageDocIdNormal()
    ensures IsTrimmed(PageDocId) && Trim(PageDocId) == PageDocId && |PageDocId| == 11
  {
    assert PageDocId[0] == 'e' && PageDocId[10] == 'n';
    TrimOfTrimmed(PageDocId);
  }

  /** The body of the autosave request. */
  function SaveBody(sessionId: string, title: string, activeTab: string, zoom: real): Json {
    Obj(map["sessionId" := Str(sessionId), "docId" := Str(PageDocId), "title" := Str(title),
            "content" := Obj(map["activeTab" := Str(activeTab), "zoom" := Num(zoom)])])
  }

  /** What a load response restores: the title and the active tab when they
      are non-empty strings, the zoom when it is a number. */
  datatype Restored = Restored(title: Option<string>, activeTab: Option<string>, zoom: Option<real>)

  function NonEmptyString(v: Json): Option<string> {
    if v.Str? && v.s != [] then Some(v.s) else None
  }

  function Restore(data: Json): (r: Restored)
    ensures r.title.Some? ==> r.title.value != []
    ensures r.activeTab.Some? ==> r.activeTab.value != []
  {
    var document := Property(data, "document");
    var content := Property(document, "content");
    var zoom := Property(content, "zoom");
    Restored(NonEmptyString(Property(document, "title")), NonEmptyString(Property(content, "activeTab")),
             if zoom.Num? then Some(zoom.n) else None)
  }

  /** The properties of the autosave body, one by one. */
  lemma SaveBodyProperties(sessionId: string, title: string, activeTab: string, zoom: real)
    ensures var b := SaveBody(sessionId, title, activeTab, zoom);
            Property(b, "sessionId") == Str(sessionId) && Property(b, "docId") == Str(PageDocId)
            && Property(b, "title") == Str(title)
            && Property(b, "content") == Obj(map["activeTab" := Str(activeTab), "zoom" := Num(zoom)])
  {
    assert "sessionId"[0] == 's' && "docId"[0] == 'd' && "title"[0] == 't' && "content"[0] == 'c';
  }

  /** What a PUT stores for the autosave body. */
  lemma SaveBodyNormalised(sessionId: string, title: string, activeTab: string, zoom: real)
    requires IsTrimmed(sessionId) && IsTrimmed(title) && title != []
    ensures Normalise(SaveBody(sessionId, title, activeTab, zoom))
            == Record(sessionId, PageDocId, title, Obj(map["activeTab" := Str(activeTab), "zoom" := Num(zoom)]))
  {
    SaveBodyProperties(sessionId, title, activeTab, zoom);
    TrimOfTrimmed(sessionId);
    TrimOfTrimmed(title);
    PageDocIdNormal();
  }

  /** Loading a stored row restores what its content and title carry. */
  lemma RestoreStoredRow(r: Record, title: string, activeTab: string, zoom: real)
    requires title != [] && activeTab != []
    requires r.title == title && r.content == Obj(map["activeTab" := Str(activeTab), "zoom" := Num(zoom)])
    ensures Restore(Obj(map["document" := StoredRow(r)])) == Restored(Some(title), Some(activeTab), Some(zoom))
  {
    assert "doc_id"[0] == 'd' && "title"[0] == 't' && "content"[0] == 'c';
    assert "activeTab"[0] == 'a' && "zoom"[0] == 'z';
  }

  /** What the page saves comes back on the next load: the route normalises
      the autosave body to the trimmed session id, the page's document id,
      the trimmed title (the default one for a blank title) and the content,
      and loading the row it stores restores that title, the tab and the
      zoom. */
  lemma SaveThenLoad(sessionId: string, title: string, activeTab: string, zoom: real)
    requires activeTab != []
    ensures var r := Normalise(SaveBody(sessionId, title, activeTab, zoom));
            var stored := if IsBlank(title) then DefaultTitle else Trim(title);
            r.sessionId == Trim(sessionId) && r.docId == PageDocId && r.title == stored
            && Restore(Obj(map["document" := StoredRow(r)])) == Restored(Some(stored), Some(activeTab), Some(zoom))
  {
    SaveBodyProperties(sessionId, title, activeTab, zoom);
    PageDocIdNormal();
    TrimEmptyIffBlank(title);
    var r := Normalise(SaveBody(sessionId, title, activeTab, zoom));
    RestoreStoredRow(r, r.title, activeTab, zoom);
  }

  /** The autosave body passes the route's id checks when the session id
      does. */
  lemma SaveBodyIdsValid(sessionId: string, title: string, activeTab: string, zoom: real)
    requires IsTrimmed(sessionId) && 1 <= Utf16Length(sessionId) <= MaxIdLength
    ensures var r := Normalise(SaveBody(sessionId, title, activeTab, zoom));
            r.sessionId == sessionId && r.docId == PageDocId && CheckIds(r.sessionId, r.docId).None?
  {
    SaveBodyProperties(sessionId, title, activeTab, zoom);
    TrimOfTrimmed(sessionId);
    PageDocIdNormal();
  }

  /** The next load reads back what was saved: with a valid session id and
      a database whose select finds the stored row, the GET handler answers
      200 with that row, and restoring it gives the saved title (trimmed, or
      the default for a blank one), the tab and the zoom. */
  lemma SaveThenGet(sessionId: string, title: string, activeTab: string, zoom: real, db: Database)
    requires IsTrimmed(sessionId) && 1 <= Utf16Length(sessionId) <= MaxIdLength && activeTab != []
    requires var r := Normalise(SaveBody(sessionId, title, activeTab, zoom));
             db.cleanup.None? && db.select(sessionId, PageDocId) == Done([StoredRow(r)])
    ensures var r := Normalise(SaveBody(sessionId, title, activeTab, zoom));
            var answer := Get(Some(sessionId), Some(PageDocId), db);
            var stored := if IsBlank(title) then DefaultTitle else Trim(title);
            answer == Response(200, Obj(map["document" := StoredRow(r)]))
            && Restore(answer.body) == Restored(Some(stored), Some(activeTab), Some(zoom))
  {
    var r := Normalise(SaveBody(sessionId, title, activeTab, zoom));
    SaveBodyIdsValid(sessionId, title, activeTab, zoom);
    SaveThenLoad(sessionId, title, activeTab, zoom);
    TrimOfTrimmed(sessionId);
    PageDocIdNormal();
    assert AsTrimmedString(Param(Some(sessionId))) == sessionId;
    assert DocIdOf(Param(Some(PageDocId))) == PageDocId;
    assert CheckIds(sessionId, PageDocId).None?;
  }

  /** An autosave with a valid session id reaches the database, and the
      first row it returns is the answer. */
  lemma SaveIsAccepted(sessionId: string, title: string, activeTab: string, zoom: real, db: Database, row: Json,
                       typeError: string)
    requires IsTrimmed(sessionId) && 1 <= Utf16Length(sessionId) <= MaxIdLength
    requires var r := Normalise(SaveBody(sessionId, title, activeTab, zoom));
             db.cleanup.None? && db.upsert(r.sessionId, r.docId, r.title, r.content) == Done([row])
    ensures Put(Done(SaveBody(sessionId, title, activeTab, zoom)), typeError, db) == Response(200, Obj(map["document" := row]))
  {
    SaveBodyIdsValid(sessionId, title, activeTab, zoom);
    PutStoresNormalised(SaveBody(sessionId, title, activeTab, zoom).fields, typeError, db, row);
  }

  // ------------------------------------------------------------ upload and export

  /** The lower-cased name ends in ".pdf". */
  predicate HasPdfExtension(name: string) {
    EndsWith(LowerAscii(name), ".pdf")
  }

  /** The extension test is a case-insensitive match of the last four
      characters. */
  lemma PdfExtensionIgnoresCase(name: string)
    ensures HasPdfExtension(name) <==>
              |name| >= 4 && name[|name| - 4] == '.' && IsLetterIgnoringCase(name[|name| - 3], 'p')
              && IsLetterIgnoringCase(name[|name| - 2], 'd') && IsLetterIgnoringCase(name[|name| - 1], 'f')
  {
    var lower := LowerAscii(name);
    if |name| >= 4 {
      var n := |name|;
      assert lower[n - 4..] == [lower[n - 4], lower[n - 3], lower[n - 2], lower[n - 1]];
    }
  }

  /** A file the upload handler is given. */
  datatype FileInfo = FileInfo(name: string, mimeType: string)

  const PdfMimeType := "application/pdf"

  predicate Accepted(file: FileInfo) {
    file.mimeType == PdfMimeType || HasPdfExtension(file.name)
  }

  const OnlyPdfMessage := "Only PDF files are supported."
  const EmptyPdfMessage := "Selected PDF is empty."
  const UnreadableMessage := "Could not read this PDF file."
  const NothingToExportMessage := "Upload a PDF before exporting."
  const ExportFailedMessage := "Export failed for this PDF."

  /** The download name: the trimmed title, or "document" when it is blank,
      with ".pdf" added. */
  function DownloadFilename(title: string): (r: string)
    ensures EndsWith(r, ".pdf") && |r| > 4
    ensures var stem := r[..|r| - 4]; stem != [] && IsTrimmed(stem)
  {
    var t := Trim(title);
    TrimTrimmed(title);
    var stem := if t == [] then "document" else t;
    assert (stem + ".pdf")[..|stem + ".pdf"| - 4] == stem;
    stem + ".pdf"
  }

  /** A trimmed title names the file as it is; a blank one gives "document.pdf". */
  lemma DownloadFilenameCases(title: string)
    ensures IsTrimmed(title) && title != [] ==> DownloadFilename(title) == title + ".pdf"
    ensures IsBlank(title) ==> DownloadFilename(title) == "document.pdf"
    ensures DownloadFilename(Trim(title)) == DownloadFilename(title)
  {
    TrimEmptyIffBlank(title);
    TrimIdempotent(title);
    if IsTrimmed(title) {
      TrimOfTrimmed(title);
    }
  }

  /** What asking the canvas for the exported bytes gave: no document, the
      bytes, or a thrown error. */
  datatype ExportResult = NoBytes | Bytes(bytes: seq<bv8>) | ExportThrew

  /** What happens on the page: the session starts, a load or a save
      answers, the autosave timer fires, a button is clicked or a file is
      chosen. */
  datatype PageEvent =
    | SessionStarted(stored: Option<string>, freshId: string)
    | LoadAnswered(status: Option<int>, body: Outcome<Json>)
    | TimerFired
    | SaveAnswered(status: Option<int>)
    | ZoomOutClicked
    | ZoomInClicked
    | FileChosen(file: Option<FileInfo>, contents: Option<seq<bv8>>, objectUrl: string)
    | ExportClicked(result: ExportResult)

  predicate NoSessionStart(events: seq<PageEvent>) {
    forall k :: 0 <= k < |events| ==> !events[k].SessionStarted?
  }

  // ------------------------------------------------------------ page

  class Page {
    var activeTab: string
    var zoom: real
    var title: string
    var pdfBytes: Option<seq<bv8>>
    var pdfUrl: Option<string>
    var uploadedPdfName: string
    var uploadMessage: Option<string>
    var sessionId: Option<string>
    var saveStatus: SaveStatus
    var saveDisabled: bool
    var isHydrated: bool

    constructor()
      ensures activeTab == "elements" && zoom == 100.0 && title == "Untitled Design"
      ensures pdfBytes.None? && pdfUrl.None? && uploadedPdfName == "No PDF uploaded" && uploadMessage.None?
      ensures sessionId.None? && saveStatus == Idle && !saveDisabled && !isHydrated
    {
      activeTab := "elements";
      zoom := 100.0;
      title := "Untitled Design";
      pdfBytes := None;
      pdfUrl := None;
      uploadedPdfName := "No PDF uploaded";
      uploadMessage := None;
      sessionId := None;
      saveStatus := Idle;
      saveDisabled := false;
      isHydrated := false;
    }

    function StatusLine(): string
      reads this
    {
      StatusText(sessionId, saveDisabled, saveStatus)
    }

    predicate AutosaveDue()
      reads this
    {
      ShouldAutosave(sessionId, isHydrated, saveDisabled)
    }

    /** The session id: the stored one when there is one, else a fresh one,
        which is then to be stored. */
    method StartSession(stored: Option<string>, freshId: string) returns (store: bool)
      modifies this
      ensures store <==> !HasSession(stored)
      ensures sessionId == if HasSession(stored) then stored else Some(freshId)
      ensures activeTab == old(activeTab) && zoom == old(zoom) && title == old(title)
      ensures pdfBytes == old(pdfBytes) && pdfUrl == old(pdfUrl) && uploadedPdfName == old(uploadedPdfName)
      ensures uploadMessage == old(uploadMessage) && saveStatus == old(saveStatus)
      ensures saveDisabled == old(saveDisabled) && isHydrated == old(isHydrated)
    {
      if HasSession(stored) {
        sessionId := stored;
        store := false;
      } else {
        sessionId := Some(freshId);
        store := true;
      }
    }

    /** The load response (its status, or none when the request failed, and
        its parsed body): 404 only ends hydration; 503 switches autosave off;
        any other failure marks the save status as failed; a good response
        restores what it carries. Hydration ends on every path. */
    method HandleLoadResponse(status: Option<int>, body: Outcome<Json>)
      modifies this
      ensures isHydrated
      ensures status == Some(404) ==>
                saveStatus == old(saveStatus) && saveDisabled == old(saveDisabled)
                && title == old(title) && activeTab == old(activeTab) && zoom == old(zoom)
      ensures status == Some(503) ==>
                saveStatus == Idle && saveDisabled
                && title == old(title) && activeTab == old(activeTab) && zoom == old(zoom)
      ensures status != Some(404) && status != Some(503) ==> saveDisabled == old(saveDisabled)
      ensures status != Some(404) && status != Some(503)
              && (status.None? || !(200 <= status.value <= 299) || body.Threw? || body.value.Null?) ==>
                saveStatus == Error && title == old(title) && activeTab == old(activeTab) && zoom == old(zoom)
      ensures status.Some? && 200 <= status.value <= 299 && body.Done? && !body.value.Null? ==>
                var r := Restore(body.value);
                saveStatus == old(saveStatus)
                && title == (if r.title.Some? then r.title.value else old(title))
                && activeTab == (if r.activeTab.Some? then r.activeTab.value else old(activeTab))
                && zoom == (if r.zoom.Some? then r.zoom.value else old(zoom))
      ensures pdfBytes == old(pdfBytes) && pdfUrl == old(pdfUrl) && uploadedPdfName == old(uploadedPdfName)
      ensures uploadMessage == old(uploadMessage) && sessionId == old(sessionId)
    {
      if status == Some(404) {
        isHydrated := true;
        return;
      }
      if status == Some(503) {
        saveDisabled := true;
        saveStatus := Idle;
        isHydrated := true;
        return;
      }
      if status.None? || !(200 <= status.value <= 299) || body.Threw? || body.value.Null? {
        saveStatus := Error;
      } else {
        var r := Restore(body.value);
        if r.title.Some? {
          title := r.title.value;
        }
        if r.activeTab.Some? {
          activeTab := r.activeTab.value;
        }
        if r.zoom.Some? {
          zoom := r.zoom.value;
        }
      }
      isHydrated := true;
    }

    /** The autosave timer fires: the status becomes "saving". The timer is
        armed only while autosave is due, and cleared whenever one of the
        values it depends on changes. */
    method BeginSave()
      requires AutosaveDue()
      modifies this
      ensures saveStatus == Saving
      ensures activeTab == old(activeTab) && zoom == old(zoom) && title == old(title)
      ensures pdfBytes == old(pdfBytes) && pdfUrl == old(pdfUrl) && uploadedPdfName == old(uploadedPdfName)
      ensures uploadMessage == old(uploadMessage) && sessionId == old(sessionId)
      ensures saveDisabled == old(saveDisabled) && isHydrated == old(isHydrated)
    {
      saveStatus := Saving;
    }

    /** The save response: 503 switches autosave off, any other failure (or
        no response) marks the save as failed, success as saved. */
    method HandleSaveResponse(status: Option<int>)
      modifies this
      ensures status == Some(503) ==> saveDisabled && saveStatus == Idle
      ensures status != Some(503) ==> saveDisabled == old(saveDisabled)
      ensures status != Some(503) ==>
                (saveStatus == Saved <==> status.Some? && 200 <= status.value <= 299)
                && (saveStatus == Error <==> !(status.Some? && 200 <= status.value <= 299))
      ensures activeTab == old(activeTab) && zoom == old(zoom) && title == old(title)
      ensures pdfBytes == old(pdfBytes) && pdfUrl == old(pdfUrl) && uploadedPdfName == old(uploadedPdfName)
      ensures uploadMessage == old(uploadMessage) && sessionId == old(sessionId) && isHydrated == old(isHydrated)
    {
      if status == Some(503) {
        saveDisabled := true;
        saveStatus := Idle;
        return;
      }
      if status.None? || !(200 <= status.value <= 299) {
        saveStatus := Error;
      } else {
        saveStatus := Saved;
      }
    }

    /** The zoom buttons. */
    method ClickZoomOut()
      modifies this
      ensures zoom == ZoomOut(old(zoom))
      ensures activeTab == old(activeTab) && title == old(title)
      ensures pdfBytes == old(pdfBytes) && pdfUrl == old(pdfUrl) && uploadedPdfName == old(uploadedPdfName)
      ensures uploadMessage == old(uploadMessage) && sessionId == old(sessionId) && saveStatus == old(saveStatus)
      ensures saveDisabled == old(saveDisabled) && isHydrated == old(isHydrated)
    {
      zoom := Max(MinZoom, zoom - ZoomStep);
    }

    method ClickZoomIn()
      modifies this
      ensures zoom == ZoomIn(old(zoom))
      ensures activeTab == old(activeTab) && title == old(title)
      ensures pdfBytes == old(pdfBytes) && pdfUrl == old(pdfUrl) && uploadedPdfName == old(uploadedPdfName)
      ensures uploadMessage == old(uploadMessage) && sessionId == old(sessionId) && saveStatus == old(saveStatus)
      ensures saveDisabled == old(saveDisabled) && isHydrated == old(isHydrated)
    {
      zoom := Min(MaxZoom, zoom + ZoomStep);
    }

    /** The file input changed: the first file (if any), its contents (none
        when reading failed) and the object URL a successful upload gets. */
    method HandleUpload(file: Option<FileInfo>, contents: Option<seq<bv8>>, objectUrl: string)
      modifies this
      ensures file.None? ==> uploadMessage == old(uploadMessage)
      ensures file.Some? && !Accepted(file.value) ==> uploadMessage == Some(OnlyPdfMessage)
      ensures file.Some? && Accepted(file.value) && contents.None? ==> uploadMessage == Some(UnreadableMessage)
      ensures file.Some? && Accepted(file.value) && contents.Some? && |contents.value| == 0 ==>
                uploadMessage == Some(EmptyPdfMessage)
      ensures var ok := file.Some? && Accepted(file.value) && contents.Some? && |contents.value| > 0;
              (ok ==> pdfBytes == contents && pdfUrl == Some(objectUrl) && uploadedPdfName == file.value.name
                      && uploadMessage.None? && activeTab == "uploads")
              && (!ok ==> pdfBytes == old(pdfBytes) && pdfUrl == old(pdfUrl)
                          && uploadedPdfName == old(uploadedPdfName) && activeTab == old(activeTab))
      ensures zoom == old(zoom) && title == old(title) && sessionId == old(sessionId) && saveStatus == old(saveStatus)
      ensures saveDisabled == old(saveDisabled) && isHydrated == old(isHydrated)
    {
      if file.None? {
        return;
      }
      var f := file.value;
      if f.mimeType != PdfMimeType && !HasPdfExtension(f.name) {
        uploadMessage := Some(OnlyPdfMessage);
        return;
      }
      if contents.None? {
        uploadMessage := Some(UnreadableMessage);
        return;
      }
      var bytes := contents.value;
      if |bytes| == 0 {
        uploadMessage := Some(EmptyPdfMessage);
        return;
      }
      pdfBytes := Some(bytes);
      pdfUrl := Some(objectUrl);
      uploadedPdfName := f.name;
      uploadMessage := None;
      activeTab := "uploads";
    }

    /** The export button: without bytes, or when exporting throws, a
        message; otherwise the name of the file to download. An empty byte
        array is still a download. */
    method HandleExport(result: ExportResult) returns (download: Option<string>)
      modifies this
      ensures result.NoBytes? ==> download.None? && uploadMessage == Some(NothingToExportMessage)
      ensures result.ExportThrew? ==> download.None? && uploadMessage == Some(ExportFailedMessage)
      ensures result.Bytes? ==> download == Some(DownloadFilename(title)) && uploadMessage.None?
      ensures activeTab == old(activeTab) && zoom == old(zoom) && title == old(title)
      ensures pdfBytes == old(pdfBytes) && pdfUrl == old(pdfUrl) && uploadedPdfName == old(uploadedPdfName)
      ensures sessionId == old(sessionId) && saveStatus == old(saveStatus)
      ensures saveDisabled == old(saveDisabled) && isHydrated == old(isHydrated)
    {
      match result
      case NoBytes =>
        uploadMessage := Some(NothingToExportMessage);
        download := None;
      case ExportThrew =>
        uploadMessage := Some(ExportFailedMessage);
        download := None;
      case Bytes(_) =>
        var stem := Trim(title);
        download := Some((if stem == [] then "document" else stem) + ".pdf");
        uploadMessage := None;
    }

    /** The page's events, one after the other, as the browser delivers them:
        each goes to its handler, and a firing of the autosave timer starts a
        save only while autosave is due, since the timer is armed only then.
        The result is the number of saves started. Once saving is switched
        off no save starts again, and without a session none starts at all. */
    method HandleEvents(events: seq<PageEvent>) returns (saves: nat)
      modifies this
      ensures old(saveDisabled) ==> saveDisabled && saves == 0
      ensures saveDisabled ==> !AutosaveDue() && StatusLine() in {"No session", "Autosave Off"}
      ensures NoSessionStart(events) && !HasSession(old(sessionId)) ==> !HasSession(sessionId) && saves == 0
    {
      saves := 0;
      var i := 0;
      while i < |events|
        invariant 0 <= i <= |events|
        invariant old(saveDisabled) ==> saveDisabled && saves == 0
        invariant NoSessionStart(events[..i]) && !HasSession(old(sessionId)) ==> !HasSession(sessionId) && saves == 0
      {
        assert events[..i + 1] == events[..i] + [events[i]];
        match events[i] {
          case SessionStarted(stored, freshId) =>
            var _ := StartSession(stored, freshId);
          case LoadAnswered(status, body) =>
            HandleLoadResponse(status, body);
          case TimerFired =>
            if AutosaveDue() {
              BeginSave();
              saves := saves + 1;
            }
          case SaveAnswered(status) =>
            HandleSaveResponse(status);
          case ZoomOutClicked =>
            ClickZoomOut();
          case ZoomInClicked =>
            ClickZoomIn();
          case FileChosen(file, contents, objectUrl) =>
            HandleUpload(file, contents, objectUrl);
          case ExportClicked(result) =>
            var _ := HandleExport(result);
        }
        i := i + 1;
      }
      assert events[..i] == events;
    }
  }
}
