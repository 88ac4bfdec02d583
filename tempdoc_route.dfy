/** The temporary-document API route: GET loads the document saved for a
    session, PUT saves it. Both normalise their inputs the same way (trimmed
    strings, a default document id), validate the two ids, clear expired
    rows and answer with JSON; every failure becomes a JSON error response.
    The database is a parameter: what cleaning up, selecting and upserting
    give back (rows, or a thrown value). */
module TempDocRoute {
  import opened Geometry
  import opened JsText

  /** JavaScript values as they appear in a parsed JSON request body;
      `Undefined` is what reading a missing property gives. */
  datatype Json =
    | Undefined
    | Null
    | Bool(b: bool)
    | Num(n: real)
    | Str(s: string)
    | Arr(items: seq<Json>)
    | Obj(fields: map<string, Json>)

  /** A thrown value: an `Error` with its message, or anything else. */
  datatype Thrown = ErrorObject(message: string) | NonError

  /** The result of an awaited call: a value, or what it threw. */
  datatype Outcome<T> = Done(value: T) | Threw(error: Thrown)

  /** An HTTP response with a JSON body. */
  datatype Response = Response(status: int, body: Json)

  /** What the database does when asked: whether removing expired rows
      throws (as getting the pool does without a connection string), and the
      rows a select or an upsert returns, or what it throws. */
  datatype Database = Database(
    cleanup: Option<Thrown>,
    select: (string, string) -> Outcome<seq<Json>>,
    upsert: (string, string, string, Json) -> Outcome<seq<Json>>)

  const MaxIdLength: nat := 128
  const DefaultDocId := "editor-main"
  const DefaultTitle := "Untitled Design"
  const MissingDatabaseUrl := "Missing DATABASE_URL"
  const LoadFallback := "Unable to load document"
  const SaveFallback := "Unable to save document"

  /** `asTrimmedString`: a string trimmed, anything else the empty string. */
  function AsTrimmedString(value: Json): (r: string)
    ensures IsTrimmed(r)
    ensures value.Str? ==> r == Trim(value.s)
    ensures !value.Str? ==> r == []
  {
    if value.Str? then TrimTrimmed(value.s); Trim(value.s) else []
  }

  /** A search parameter: null when absent. */
  function Param(p: Option<string>): Json {
    if p.Some? then Str(p.value) else Null
  }

  /** The messages of `validateId`. */
  function Required(fieldName: string): string {
    fieldName + " is required"
  }

  function TooLong(fieldName: string): string {
    fieldName + " is too long"
  }

  /** `validateId`: an error when the id is empty or longer than 128 UTF-16
      code units, nothing otherwise. */
  function ValidateId(value: string, fieldName: string): (r: Option<Thrown>)
    ensures r.None? <==> 1 <= Utf16Length(value) <= MaxIdLength
    ensures r == Some(ErrorObject(Required(fieldName))) <==> value == []
    ensures r.Some? && value != [] ==> r == Some(ErrorObject(TooLong(fieldName)))
  {
    MessagesDiffer(fieldName);
    if value == [] then Some(ErrorObject(Required(fieldName)))
    else if Utf16Length(value) > MaxIdLength then Some(ErrorObject(TooLong(fieldName)))
    else None
  }

  /** The two messages of `validateId` never coincide. */
  lemma MessagesDiffer(fieldName: string)
    ensures TooLong(fieldName) != Required(fieldName)
    ensures TooLong(fieldName) != MissingDatabaseUrl && Required(fieldName) != MissingDatabaseUrl
  {
    assert (fieldName + " is too long")[|fieldName| + 4] == 't';
    assert (fieldName + " is required")[|fieldName| + 4] == 'r';
    assert (fieldName + " is too long")[|fieldName + " is too long"| - 1] == 'g';
    assert (fieldName + " is required")[|fieldName + " is required"| - 1] == 'd';
  }

  /** The document id: the trimmed string, or the default when that is empty. */
  function DocIdOf(value: Json): (r: string)
    ensures r != [] && IsTrimmed(r)
    ensures r == DefaultDocId || (value.Str? && r == Trim(value.s))
    ensures r == DefaultDocId <==> AsTrimmedString(value) in {[], DefaultDocId}
  {
    var t := AsTrimmedString(value);
    if t == [] then DefaultDocId else t
  }

  /** The title: the trimmed string, or "Untitled Design" when that is empty. */
  function TitleOf(value: Json): (r: string)
    ensures r != [] && IsTrimmed(r)
    ensures r == DefaultTitle <==> AsTrimmedString(value) in {[], DefaultTitle}
  {
    var t := AsTrimmedString(value);
    if t == [] then DefaultTitle else t
  }

  /** The content: an object or array as given, anything else an empty object. */
  function ContentOf(value: Json): (r: Json)
    ensures r.Arr? || r.Obj?
    ensures (value.Arr? || value.Obj?) ==> r == value
    ensures !(value.Arr? || value.Obj?) ==> r == Obj(map[])
  {
    if value.Arr? || value.Obj? then value else Obj(map[])
  }

  /** `toErrorResponse`: the error's message (or the fallback for a thrown
      non-error) under `error`, with status 503 for a missing connection
      string and 400 otherwise. */
  function ToErrorResponse(error: Thrown, fallbackMessage: string): (r: Response)
    ensures r.status == 503 || r.status == 400
    ensures var message := if error.ErrorObject? then error.message else fallbackMessage;
            r.body == Obj(map["error" := Str(message)])
            && (r.status == 503 <==> message == MissingDatabaseUrl)
  {
    var message := if error.ErrorObject? then error.message else fallbackMessage;
    Response(if message == MissingDatabaseUrl then 503 else 400, Obj(map["error" := Str(message)]))
  }

  /** An error response carries its message as a string under `error`. */
  predicate IsErrorResponse(r: Response) {
    (r.status == 400 || r.status == 503) && r.body.Obj? && "error" in r.body.fields && r.body.fields["error"].Str?
  }

  lemma ErrorResponseShape(error: Thrown, fallbackMessage: string)
    ensures IsErrorResponse(ToErrorResponse(error, fallbackMessage))
  {
  }

  /** The two ids, validated in order: session id first. */
  function CheckIds(sessionId: string, docId: string): Option<Thrown> {
    var s := ValidateId(sessionId, "sessionId");
    if s.Some? then s else ValidateId(docId, "docId")
  }

  /** GET: the document saved under the normalised ids, 404 with a null
      document when there is none. */
  function Get(sessionParam: Option<string>, docParam: Option<string>, db: Database): Response {
    var sessionId := AsTrimmedString(Param(sessionParam));
    var docId := DocIdOf(Param(docParam));
    var invalid := CheckIds(sessionId, docId);
    if invalid.Some? then ToErrorResponse(invalid.value, LoadFallback)
    else if db.cleanup.Some? then ToErrorResponse(db.cleanup.value, LoadFallback)
    else match db.select(sessionId, docId)
      case Threw(e) => ToErrorResponse(e, LoadFallback)
      case Done(rows) =>
        if |rows| == 0 then Response(404, Obj(map["document" := Null]))
        else Response(200, Obj(map["document" := rows[0]]))
  }

  /** Reading a property of the parsed body: missing properties, and every
      property of a value that is not an object, are undefined. */
  function Property(body: Json, key: string): Json {
    if body.Obj? && key in body.fields then body.fields[key] else Undefined
  }

  /** What a PUT saves: the normalised ids, title and content of its body. */
  datatype Record = Record(sessionId: string, docId: string, title: string, content: Json)

  function Normalise(b: Json): (r: Record)
    ensures r.docId != [] && r.title != [] && (r.content.Arr? || r.content.Obj?)
  {
    Record(AsTrimmedString(Property(b, "sessionId")), DocIdOf(Property(b, "docId")),
           TitleOf(Property(b, "title")), ContentOf(Property(b, "content")))
  }

  /** The row the upsert returns for a record, without its timestamps. */
  function StoredRow(r: Record): Json {
    Obj(map["doc_id" := Str(r.docId), "title" := Str(r.title), "content" := r.content])
  }

  /** PUT: save the normalised title and content under the normalised ids.
      A body that does not parse throws on reading it; a body that parses to
      null throws the runtime's TypeError, whose message is `typeError`. When
      the upsert returns no row the answer is an empty object, because an
      undefined document is dropped from the JSON. */
  function Put(body: Outcome<Json>, typeError: string, db: Database): Response {
    match body
    case Threw(e) => ToErrorResponse(e, SaveFallback)
    case Done(b) =>
      if b.Null? || b.Undefined? then ToErrorResponse(ErrorObject(typeError), SaveFallback)
      else
        var r := Normalise(b);
        var invalid := CheckIds(r.sessionId, r.docId);
        if invalid.Some? then ToErrorResponse(invalid.value, SaveFallback)
        else if db.cleanup.Some? then ToErrorResponse(db.cleanup.value, SaveFallback)
        else match db.upsert(r.sessionId, r.docId, r.title, r.content)
          case Threw(e) => ToErrorResponse(e, SaveFallback)
          case Done(rows) =>
            if |rows| == 0 then Response(200, Obj(map[]))
            else Response(200, Obj(map["document" := rows[0]]))
  }

  /** The ids pass exactly when both are present and fit in 128 code units. */
  lemma CheckIdsSpec(sessionId: string, docId: string)
    ensures CheckIds(sessionId, docId).None? <==>
              1 <= Utf16Length(sessionId) <= MaxIdLength && 1 <= Utf16Length(docId) <= MaxIdLength
  {
  }

  /** The document id is never reported missing: the default fills it in. */
  lemma DocIdNeverMissing(sessionId: string, docParam: Json)
    ensures CheckIds(sessionId, DocIdOf(docParam)) != Some(ErrorObject(Required("docId")))
  {
    var docId := DocIdOf(docParam);
    var v := ValidateId(sessionId, "sessionId");
    if v.None? {
      assert CheckIds(sessionId, docId) == ValidateId(docId, "docId");
      assert docId != [];
    } else {
      SessionMessagesAreNotDocMessages();
      assert CheckIds(sessionId, docId) == v;
      assert v.value.message == Required("sessionId") || v.value.message == TooLong("sessionId");
    }
  }

  /** No message about the session id is a message about the document id. */
  lemma SessionMessagesAreNotDocMessages()
    ensures Required("sessionId") != Required("docId") && TooLong("sessionId") != Required("docId")
  {
    assert Required("sessionId")[0] == 's' && TooLong("sessionId")[0] == 's' && Required("docId")[0] == 'd';
  }

  /** Every GET answers 200 with a document, 404 with a null document, or
      400/503 with an error. */
  lemma GetStatuses(sessionParam: Option<string>, docParam: Option<string>, db: Database)
    ensures var r := Get(sessionParam, docParam, db);
            (r.status == 200 && r.body.Obj? && "document" in r.body.fields)
            || r == Response(404, Obj(map["document" := Null]))
            || IsErrorResponse(r)
  {
    var r := Get(sessionParam, docParam, db);
    var sessionId := AsTrimmedString(Param(sessionParam));
    var docId := DocIdOf(Param(docParam));
    var invalid := CheckIds(sessionId, docId);
    if invalid.Some? {
      assert r == ToErrorResponse(invalid.value, LoadFallback);
      ErrorResponseShape(invalid.value, LoadFallback);
    } else if db.cleanup.Some? {
      assert r == ToErrorResponse(db.cleanup.value, LoadFallback);
      ErrorResponseShape(db.cleanup.value, LoadFallback);
    } else {
      match db.select(sessionId, docId)
      case Threw(e) =>
        assert r == ToErrorResponse(e, LoadFallback);
        ErrorResponseShape(e, LoadFallback);
      case Done(rows) =>
        if |rows| != 0 {
          assert r == Response(200, Obj(map["document" := rows[0]]));
        }
    }
  }

  /** A GET whose ids fail validation is refused with 400 before the database
      is touched: its answer is the same whatever the database does. */
  lemma GetRejectsInvalidIds(sessionParam: Option<string>, docParam: Option<string>, db1: Database, db2: Database)
    requires CheckIds(AsTrimmedString(Param(sessionParam)), DocIdOf(Param(docParam))).Some?
    ensures Get(sessionParam, docParam, db1) == Get(sessionParam, docParam, db2)
    ensures Get(sessionParam, docParam, db1).status == 400
  {
    MessagesDiffer("sessionId");
    MessagesDiffer("docId");
  }

  /** A GET without a session id is refused with "sessionId is required". */
  lemma GetWithoutSession(docParam: Option<string>, db: Database)
    ensures Get(None, docParam, db) == Response(400, Obj(map["error" := Str(Required("sessionId"))]))
  {
    MessagesDiffer("sessionId");
    assert AsTrimmedString(Param(None)) == [];
    var e := ErrorObject(Required("sessionId"));
    assert CheckIds([], DocIdOf(Param(docParam))) == Some(e);
    assert ToErrorResponse(e, LoadFallback) == Response(400, Obj(map["error" := Str(Required("sessionId"))]));
  }

  /** GET and PUT agree on the ids: a PUT body and GET parameters holding the
      same strings are checked alike and reach the database under the same
      normalised ids. */
  lemma SameIdsForGetAndPut(session: string, doc: string, fields: map<string, Json>)
    requires "sessionId" in fields && fields["sessionId"] == Str(session)
    requires "docId" in fields && fields["docId"] == Str(doc)
    ensures AsTrimmedString(Property(Obj(fields), "sessionId")) == AsTrimmedString(Param(Some(session)))
    ensures DocIdOf(Property(Obj(fields), "docId")) == DocIdOf(Param(Some(doc)))
  {
  }

  /** A PUT whose body carries no usable session id is refused with 400
      "sessionId is required", whatever the database does. */
  lemma PutWithoutSession(b: Json, typeError: string, db: Database)
    requires !b.Null? && !b.Undefined?
    requires AsTrimmedString(Property(b, "sessionId")) == []
    ensures Put(Done(b), typeError, db) == Response(400, Obj(map["error" := Str(Required("sessionId"))]))
  {
    MessagesDiffer("sessionId");
    var r := Normalise(b);
    var e := ErrorObject(Required("sessionId"));
    assert CheckIds(r.sessionId, r.docId) == Some(e);
    assert ToErrorResponse(e, SaveFallback) == Response(400, Obj(map["error" := Str(Required("sessionId"))]));
  }

  /** A PUT whose normalised ids fail validation is refused with 400 before
      the database is touched. */
  lemma PutRejectsInvalidIds(b: Json, typeError: string, db1: Database, db2: Database)
    requires !b.Null? && !b.Undefined?
    requires CheckIds(Normalise(b).sessionId, Normalise(b).docId).Some?
    ensures Put(Done(b), typeError, db1) == Put(Done(b), typeError, db2)
    ensures Put(Done(b), typeError, db1).status == 400
  {
    MessagesDiffer("sessionId");
    MessagesDiffer("docId");
  }

  /** A valid PUT stores the normalised record: the upsert receives the
      trimmed ids (or the default document id), the trimmed title (or the
      default title) and object content, and its first row is answered. */
  lemma PutStoresNormalised(fields: map<string, Json>, typeError: string, db: Database, row: Json)
    requires var r := Normalise(Obj(fields));
             CheckIds(r.sessionId, r.docId).None? && db.cleanup.None?
             && db.upsert(r.sessionId, r.docId, r.title, r.content) == Done([row])
    ensures Put(Done(Obj(fields)), typeError, db) == Response(200, Obj(map["document" := row]))
  {
  }
}
