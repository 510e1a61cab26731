/** The two endpoints of the HTTP backend with behaviour: `POST /generate`
    (fetch background, generate, persist, respond) and `GET /history`
    (read back the newest records with their identity overlaid). The outside
    world is a `Services` value; the table is a sequence of records. */
module Api {
  import opened Wrappers
  import opened JsonValues
  import Text
  import Generator
  import Scraper
  import Store

  /** The body of `POST /generate`. */
  datatype Request = Request(topic: string, numQuestions: int, useWikipedia: bool)

  datatype Response = Ok(body: Json) | HttpError(status: int, detail: string)

  /** The calls the endpoints make into code outside the model: the page
      download with its HTML extraction, the chat completion, `json.loads`
      and `json.dumps`. */
  datatype Services = Services(
    get: string -> Result<Option<seq<string>>, string>,
    llm: Generator.Prompt -> Result<string, string>,
    parse: string -> Option<Json>,
    serialize: Json -> string)

  /** The response together with the table after the request. */
  datatype Handled = Handled(response: Response, db: seq<Store.Record>)

  const EmptyTopicDetail: string := "Topic must not be empty"

  /** The background text: `''` unless the page is wanted and its download
      and extraction succeed, in which case the accumulated paragraphs. */
  function Background(topic: string, useWikipedia: bool,
                      get: string -> Result<Option<seq<string>>, string>): (source: string)
    ensures !useWikipedia ==> source == ""
    ensures useWikipedia && (get(Scraper.WikiUrl(topic)).Failure? || get(Scraper.WikiUrl(topic)) == Success(None)) ==>
      source == ""
    ensures useWikipedia && get(Scraper.WikiUrl(topic)).Success? && get(Scraper.WikiUrl(topic)).value.Some? ==>
      var texts := get(Scraper.WikiUrl(topic)).value.value;
      forall kept :: Scraper.SoftCapPrefix(Scraper.NonEmpty(texts), kept) ==>
        source == (if kept == [] then "" else Text.Join("\n\n", kept))
  {
    if !useWikipedia then ""
    else
      match Scraper.FetchIntro(topic, get)
      case Success(text) => text
      case Failure(_) => ""
  }

  /** `POST /generate`. `newId` and `now` are the identity and the timestamp
      the database assigns to the inserted row. The generator's outcome is
      stated with an empty background: the background it is actually given
      cannot change that outcome (`Generator.BackgroundNotInPrompt`). */
  function GenerateQuiz(req: Request, svc: Services, db: seq<Store.Record>,
                        newId: int, now: int): (out: Handled)
    ensures Text.Strip(req.topic) == [] ==>
      out == Handled(HttpError(400, EmptyTopicDetail), db)
    ensures Text.Strip(req.topic) != [] ==>
      var gen := Generator.GenerateQuizFromText(Text.Strip(req.topic), "", req.numQuestions, svc.llm, svc.parse);
      && (gen.Failure? ==> out == Handled(HttpError(500, Generator.Message(gen.error)), db))
      && (gen.Success? ==> out.response == Ok(gen.value))
    ensures out.response.Ok? ==>
      && |out.db| == |db| + 1
      && out.db[..|db|] == db
      && out.db[|db|] == Store.Record(newId, Text.Strip(req.topic), now, svc.serialize(out.response.body))
      && Generator.HasQuestionList(out.response.body)
      && forall q :: q in out.response.body.fields["questions"].items ==> Generator.IsComplete(q)
    ensures !out.response.Ok? ==> out.db == db
  {
    var topic := Text.Strip(req.topic);
    if topic == [] then Handled(HttpError(400, EmptyTopicDetail), db)
    else
      var source := Background(topic, req.useWikipedia, svc.get);
      Generator.BackgroundNotInPrompt(topic, source, "", req.numQuestions, svc.llm, svc.parse);
      match Generator.GenerateQuizFromText(topic, source, req.numQuestions, svc.llm, svc.parse)
      case Failure(e) => Handled(HttpError(500, Generator.Message(e)), db)
      case Success(payload) =>
        var row := Store.Record(newId, topic, now, svc.serialize(payload));
        assert (db + [row])[..|db|] == db;
        Handled(Ok(payload), db + [row])
  }

  /** A whitespace-only topic is refused with 400 before anything else
      happens, and the table is unchanged. */
  lemma BlankTopicRefused(req: Request, svc: Services, db: seq<Store.Record>, newId: int, now: int)
    requires Text.AllSpace(req.topic)
    ensures GenerateQuiz(req, svc, db, newId, now) == Handled(HttpError(400, EmptyTopicDetail), db)
  {
    Text.StripEmptyIffAllSpace(req.topic);
  }

  /** Whatever the page download returns, the response and the table after
      the request are the same: the background text does not reach the
      prompt. */
  lemma FetchNeverDecides(req: Request, svc: Services, get': string -> Result<Option<seq<string>>, string>,
                          db: seq<Store.Record>, newId: int, now: int)
    ensures GenerateQuiz(req, svc.(get := get'), db, newId, now) == GenerateQuiz(req, svc, db, newId, now)
  {
    var topic := Text.Strip(req.topic);
    if topic != [] {
      Generator.BackgroundNotInPrompt(topic, Background(topic, req.useWikipedia, get'),
        Background(topic, req.useWikipedia, svc.get), req.numQuestions, svc.llm, svc.parse);
    }
  }

  // ---------------------------------------------------------------------
  // GET /history
  // ---------------------------------------------------------------------

  /** A stored document that decodes to something other than an object
      cannot take the overlay: the assignment `out['id'] = ...` raises and
      the whole listing fails. */
  datatype HistoryError = NotAnObject(recordId: int, typeName: string)

  const OverlayKeys: set<string> := {"id", "topic", "generated_at"}

  /** The record's identity written over the stored fields. */
  function Overlay(base: map<string, Json>, rec: Store.Record, iso: int -> string): (entry: map<string, Json>)
    ensures entry.Keys == base.Keys + OverlayKeys
    ensures entry["id"] == JInt(rec.id)
    ensures entry["topic"] == JStr(rec.topic)
    ensures entry["generated_at"] == JStr(iso(rec.generatedAt))
    ensures forall k :: k in base && k !in OverlayKeys ==> entry[k] == base[k]
  {
    base["id" := JInt(rec.id)]["topic" := JStr(rec.topic)]["generated_at" := JStr(iso(rec.generatedAt))]
  }

  /** The history entry of one record. `iso` is `datetime.isoformat`. */
  function Entry(rec: Store.Record, parse: string -> Option<Json>, iso: int -> string): (r: Result<map<string, Json>, HistoryError>)
    ensures r.Failure? <==> parse(rec.rawOutput).Some? && !parse(rec.rawOutput).value.JObj?
    ensures r.Success? ==>
      && OverlayKeys <= r.value.Keys
      && r.value["id"] == JInt(rec.id)
      && r.value["topic"] == JStr(rec.topic)
      && r.value["generated_at"] == JStr(iso(rec.generatedAt))
    ensures parse(rec.rawOutput).None? ==>
      r.Success? && r.value.Keys == {"raw_output"} + OverlayKeys && r.value["raw_output"] == JStr(rec.rawOutput)
    ensures parse(rec.rawOutput).Some? && parse(rec.rawOutput).value.JObj? ==>
      var stored := parse(rec.rawOutput).value.fields;
      && r.Success?
      && r.value.Keys == stored.Keys + OverlayKeys
      && forall k :: k in stored && k !in OverlayKeys ==> r.value[k] == stored[k]
  {
    match parse(rec.rawOutput)
    case None => Success(Overlay(map["raw_output" := JStr(rec.rawOutput)], rec, iso))
    case Some(JObj(fields)) => Success(Overlay(fields, rec, iso))
    case Some(other) => Failure(NotAnObject(rec.id, TypeName(other)))
  }

  /** The entries of the given rows, in order, stopping at the first row
      that cannot take the overlay. */
  function Entries(rows: seq<Store.Record>, parse: string -> Option<Json>, iso: int -> string):
    (r: Result<seq<map<string, Json>>, HistoryError>)
    ensures r.Success? <==> forall i :: 0 <= i < |rows| ==> Entry(rows[i], parse, iso).Success?
    ensures r.Success? ==>
      |r.value| == |rows| && forall i :: 0 <= i < |rows| ==> Entry(rows[i], parse, iso) == Success(r.value[i])
  {
    if rows == [] then Success([])
    else
      var head :- Entry(rows[0], parse, iso);
      var tail :- Entries(rows[1..], parse, iso);
      assert forall i :: 1 <= i < |rows| ==> rows[1..][i - 1] == rows[i];
      Success([head] + tail)
  }

  /** `GET /history?limit=...`. */
  function GetHistory(db: seq<Store.Record>, limit: int, parse: string -> Option<Json>, iso: int -> string):
    (r: Result<seq<map<string, Json>>, HistoryError>)
    ensures var rows := Store.QueryHistory(db, limit);
      && (r.Success? <==> forall i :: 0 <= i < |rows| ==> Entry(rows[i], parse, iso).Success?)
      && (r.Success? ==>
            && |r.value| == Store.RowCount(|db|, limit)
            && forall i :: 0 <= i < |rows| ==> Entry(rows[i], parse, iso) == Success(r.value[i]))
  {
    Entries(Store.QueryHistory(db, limit), parse, iso)
  }

  /** A payload that `json.loads` reads back as it was written is returned
      by the history with only the three identity keys replaced. */
  lemma HistoryRoundTrip(rec: Store.Record, payload: Json, parse: string -> Option<Json>,
                         serialize: Json -> string, iso: int -> string)
    requires payload.JObj?
    requires rec.rawOutput == serialize(payload)
    requires parse(serialize(payload)) == Some(payload)
    ensures Entry(rec, parse, iso) == Success(Overlay(payload.fields, rec, iso))
  {
  }

  /** A row newer than all others, holding a payload that `json.loads`
      reads back as written, heads the history with its payload intact. */
  lemma NewestRowHeadsHistory(db: seq<Store.Record>, row: Store.Record, body: Json,
                              parse: string -> Option<Json>, serialize: Json -> string,
                              limit: int, iso: int -> string)
    requires body.JObj?
    requires row.rawOutput == serialize(body)
    requires parse(serialize(body)) == Some(body)
    requires forall r :: r in db ==> r.generatedAt < row.generatedAt
    requires limit != 0
    ensures var h := GetHistory(db + [row], limit, parse, iso);
      h.Success? ==>
        && h.value != []
        && h.value[0] == Overlay(body.fields, row, iso)
        && ("questions" in body.fields ==> h.value[0]["questions"] == body.fields["questions"])
  {
    var e := Overlay(body.fields, row, iso);
    Store.NewestRecordFirst(db, row, limit);
    HistoryRoundTrip(row, body, parse, serialize, iso);
    HistoryHead(db + [row], limit, parse, iso, row, e);
    OverlayKeepsQuestions(body.fields, row, iso);
  }

  /** The overlay never touches `questions`. */
  lemma OverlayKeepsQuestions(base: map<string, Json>, rec: Store.Record, iso: int -> string)
    ensures "questions" in base ==> Overlay(base, rec, iso)["questions"] == base["questions"]
  {
    assert "questions" !in OverlayKeys;
  }

  /** The history's first entry is the entry of the first row returned by
      the query. */
  lemma HistoryHead(db: seq<Store.Record>, limit: int, parse: string -> Option<Json>, iso: int -> string,
                    rec: Store.Record, e: map<string, Json>)
    requires Store.QueryHistory(db, limit) != [] && Store.QueryHistory(db, limit)[0] == rec
    requires Entry(rec, parse, iso) == Success(e)
    ensures var h := GetHistory(db, limit, parse, iso);
      h.Success? ==> h.value != [] && h.value[0] == e
  {
  }

  /** A successful generation followed by a history query: when the new row
      is the newest and `json.loads` inverts `json.dumps` on the payload, the
      first history entry is the returned payload with the row's identity
      overlaid, so its questions are the returned questions. */
  lemma GenerateThenHistory(req: Request, svc: Services, db: seq<Store.Record>, newId: int, now: int,
                            limit: int, iso: int -> string)
    requires GenerateQuiz(req, svc, db, newId, now).response.Ok?
    requires var body := GenerateQuiz(req, svc, db, newId, now).response.body;
      svc.parse(svc.serialize(body)) == Some(body)
    requires forall r :: r in db ==> r.generatedAt < now
    requires limit != 0
    ensures var out := GenerateQuiz(req, svc, db, newId, now);
      var h := GetHistory(out.db, limit, svc.parse, iso);
      h.Success? ==>
        && h.value != []
        && h.value[0] == Overlay(out.response.body.fields, out.db[|db|], iso)
        && h.value[0]["questions"] == out.response.body.fields["questions"]
  {
    var out := GenerateQuiz(req, svc, db, newId, now);
    var row := out.db[|db|];
    assert out.db == db + [row] by {
      assert out.db == out.db[..|db|] + [row];
    }
    NewestRowHeadsHistory(db, row, out.response.body, svc.parse, svc.serialize, limit, iso);
  }
}
