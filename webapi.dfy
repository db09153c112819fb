/** The HTTP mirror of the desktop (api/index.py): one global state object and
    a handler per route. Flask routing and JSON (de)serialisation are left to
    the framework: a handler takes its URL parameter and its request body as an
    optional-field record and returns the status and the JSON body it sends. */
module WebApi {
  import opened Wrappers

  /** The JSON values the handlers produce. */
  datatype Json = JNull | JBool(b: bool) | JNumber(x: real) | JString(s: string)

  /** A document of the HTTP mirror. `docType` and `name` are None when the
      create request left them out (they are then sent as JSON null). Ids are
      derived from the creation time in milliseconds and may collide. */
  datatype Document = Document(docType: Option<string>, name: Option<string>, content: string, createdAt: real, id: string)

  function OptString(o: Option<string>): Json {
    match o
    case Some(s) => JString(s)
    case None => JNull
  }

  /** The JSON object sent for a document. */
  function ToDict(d: Document): (r: map<string, Json>)
    ensures r.Keys == {"id", "doc_type", "name", "content", "created_at"}
  {
    map["id" := JString(d.id), "doc_type" := OptString(d.docType), "name" := OptString(d.name),
        "content" := JString(d.content), "created_at" := JNumber(d.createdAt)]
  }

  /** Reads a document back from its JSON object. */
  function FromDict(m: map<string, Json>): Option<Document> {
    if && "id" in m && m["id"].JString?
       && "doc_type" in m && (m["doc_type"].JString? || m["doc_type"].JNull?)
       && "name" in m && (m["name"].JString? || m["name"].JNull?)
       && "content" in m && m["content"].JString?
       && "created_at" in m && m["created_at"].JNumber?
    then Some(Document(
      if m["doc_type"].JString? then Some(m["doc_type"].s) else None,
      if m["name"].JString? then Some(m["name"].s) else None,
      m["content"].s, m["created_at"].x, m["id"].s))
    else None
  }

  /** Every field is copied unchanged: the document can be read back from its dict. */
  lemma ToDictRoundTrip(d: Document)
    ensures FromDict(ToDict(d)) == Some(d)
  {
  }

  /** An HTTP response: status code and JSON body. */
  datatype Response = Response(status: nat, body: map<string, Json>)

  const NotFound: Response := Response(404, map["error" := JString("Document not found")])
  const Success: Response := Response(200, map["success" := JBool(true)])

  function DocResponse(d: Document): Response {
    Response(200, ToDict(d))
  }

  /** Request bodies: a field is None when the JSON object does not have it. */
  datatype CreateRequest = CreateRequest(docType: Option<string>, name: Option<string>)
  datatype UpdateRequest = UpdateRequest(content: Option<string>, name: Option<string>)
  datatype ClipboardRequest = ClipboardRequest(content: Option<string>)

  /** Stationery pad: its label and the document type it creates. */
  datatype Stationery = Stationery(caption: string, docType: string)

  /** Index of the first document of `s` with id `id`. */
  function FindById(s: seq<Document>, id: string): (r: Option<nat>)
    ensures r.Some? ==> r.value < |s| && s[r.value].id == id
    ensures r.Some? ==> forall j :: 0 <= j < r.value ==> s[j].id != id
    ensures r.None? ==> forall j :: 0 <= j < |s| ==> s[j].id != id
  {
    if s == [] then None
    else if s[0].id == id then Some(0)
    else match FindById(s[1..], id)
      case None => None
      case Some(i) => Some(i + 1)
  }

  /** `s.pop(i)`: the list without its i-th element. */
  function Without(s: seq<Document>, i: nat): (r: seq<Document>)
    requires i < |s|
    ensures |r| == |s| - 1
  {
    s[..i] + s[i + 1..]
  }

  /** Popping an element keeps all the others: nothing is lost or duplicated. */
  lemma WithoutKeepsOthers(s: seq<Document>, i: nat)
    requires i < |s|
    ensures multiset(Without(s, i)) + multiset{s[i]} == multiset(s)
    ensures forall j :: 0 <= j < i ==> Without(s, i)[j] == s[j]
    ensures forall j :: i <= j < |s| - 1 ==> Without(s, i)[j] == s[j + 1]
  {
    assert s == s[..i] + [s[i]] + s[i + 1..];
  }

  /** The document after PUT: a field present in the request replaces the old
      value, an absent one keeps it. */
  function Updated(d: Document, req: UpdateRequest): (r: Document)
    ensures r.id == d.id && r.docType == d.docType && r.createdAt == d.createdAt
  {
    d.(content := req.content.GetOr(d.content), name := if req.name.Some? then req.name else d.name)
  }

  /** Replacing a document by one with the same id changes no lookup by id. */
  lemma {:induction false} FindAfterReplace(s: seq<Document>, i: nat, d: Document, id: string)
    requires i < |s| && d.id == s[i].id
    ensures FindById(s[i := d], id) == FindById(s, id)
  {
    if i > 0 {
      assert s[i := d][1..] == s[1..][i - 1 := d];
      FindAfterReplace(s[1..], i - 1, d, id);
    }
  }

  /** An update followed by a get on the same id returns the updated document. */
  lemma {:induction false} UpdateThenGet(s: seq<Document>, id: string, req: UpdateRequest)
    requires FindById(s, id).Some?
    ensures var i := FindById(s, id).value;
      && FindById(s[i := Updated(s[i], req)], id) == Some(i)
      && s[i := Updated(s[i], req)][i].content == req.content.GetOr(s[i].content)
  {
  }

  /** Restore undoes delete: a document appended to a wastebasket that held no
      document with its id is the one a restore of that id finds, and popping it
      gives back the earlier wastebasket. */
  lemma RestoreUndoesDelete(waste: seq<Document>, d: Document)
    requires FindById(waste, d.id).None?
    ensures FindById(waste + [d], d.id) == Some(|waste|)
    ensures Without(waste + [d], |waste|) == waste
  {
  }

  /** The global state of the service. */
  class DesktopState {
    var clipboard: string
    var documents: seq<Document>
    var wastebasket: seq<Document>
    const stationery: seq<Stationery>

    constructor ()
      ensures clipboard == "" && documents == [] && wastebasket == []
      ensures stationery == [Stationery("Write pad", "write"), Stationery("Calc pad", "calc"), Stationery("Draw pad", "draw")]
    {
      clipboard := "";
      documents := [];
      wastebasket := [];
      stationery := [Stationery("Write pad", "write"), Stationery("Calc pad", "calc"), Stationery("Draw pad", "draw")];
    }

    /** POST /api/document/create. `now` and `id` are the clock readings the
        source takes for `created_at` and for the id. */
    method CreateDocument(req: CreateRequest, now: real, id: string) returns (resp: Response)
      modifies this
      ensures documents == old(documents) + [Document(req.docType, req.name, "", now, id)]
      ensures wastebasket == old(wastebasket) && clipboard == old(clipboard)
      ensures resp == DocResponse(documents[|documents| - 1])
    {
      var doc := Document(req.docType, req.name, "", now, id);
      documents := documents + [doc];
      resp := DocResponse(doc);
    }

    /** GET /api/document/<id>: the first document with that id; the
        wastebasket is not searched. */
    method GetDocument(docId: string) returns (resp: Response)
      ensures resp.status == 200 <==> exists j :: 0 <= j < |documents| && documents[j].id == docId
      ensures resp.status == 200 ==>
        (exists i :: 0 <= i < |documents| && documents[i].id == docId
          && (forall j :: 0 <= j < i ==> documents[j].id != docId) && resp == DocResponse(documents[i]))
      ensures resp.status != 200 ==> resp == NotFound
    {
      var i := 0;
      while i < |documents|
        invariant 0 <= i <= |documents|
        invariant forall j :: 0 <= j < i ==> documents[j].id != docId
      {
        if documents[i].id == docId {
          return DocResponse(documents[i]);
        }
        i := i + 1;
      }
      return NotFound;
    }

    /** PUT /api/document/<id>: updates the first document with that id and
        sends it back. */
    method UpdateDocument(docId: string, req: UpdateRequest) returns (resp: Response)
      modifies this
      ensures FindById(old(documents), docId).None? ==> documents == old(documents) && resp == NotFound
      ensures FindById(old(documents), docId).Some? ==>
        var i := FindById(old(documents), docId).value;
        && documents == old(documents)[i := Updated(old(documents)[i], req)]
        && resp == DocResponse(documents[i])
      ensures wastebasket == old(wastebasket) && clipboard == old(clipboard)
    {
      var i := 0;
      while i < |documents|
        invariant 0 <= i <= |documents|
        invariant forall j :: 0 <= j < i ==> documents[j].id != docId
      {
        if documents[i].id == docId {
          documents := documents[i := Updated(documents[i], req)];
          return DocResponse(documents[i]);
        }
        i := i + 1;
      }
      return NotFound;
    }

    /** POST /api/document/<id>/delete: moves the first document with that id to
        the end of the wastebasket. */
    method DeleteDocument(docId: string) returns (resp: Response)
      modifies this
      ensures FindById(old(documents), docId).None? ==>
        documents == old(documents) && wastebasket == old(wastebasket) && resp == NotFound
      ensures FindById(old(documents), docId).Some? ==>
        var i := FindById(old(documents), docId).value;
        && documents == Without(old(documents), i)
        && wastebasket == old(wastebasket) + [old(documents)[i]]
        && resp == Success
      ensures multiset(documents) + multiset(wastebasket) == multiset(old(documents)) + multiset(old(wastebasket))
      ensures clipboard == old(clipboard)
    {
      var i := 0;
      while i < |documents|
        invariant 0 <= i <= |documents|
        invariant forall j :: 0 <= j < i ==> documents[j].id != docId
      {
        if documents[i].id == docId {
          WithoutKeepsOthers(documents, i);
          var deleted := documents[i];
          documents := Without(documents, i);
          wastebasket := wastebasket + [deleted];
          return Success;
        }
        i := i + 1;
      }
      return NotFound;
    }

    /** POST /api/wastebasket/restore/<id>: moves the first wastebasket document
        with that id to the end of the documents. */
    method RestoreDocument(docId: string) returns (resp: Response)
      modifies this
      ensures FindById(old(wastebasket), docId).None? ==>
        documents == old(documents) && wastebasket == old(wastebasket) && resp == NotFound
      ensures FindById(old(wastebasket), docId).Some? ==>
        var i := FindById(old(wastebasket), docId).value;
        && wastebasket == Without(old(wastebasket), i)
        && documents == old(documents) + [old(wastebasket)[i]]
        && resp == Success
      ensures multiset(documents) + multiset(wastebasket) == multiset(old(documents)) + multiset(old(wastebasket))
      ensures clipboard == old(clipboard)
    {
      var i := 0;
      while i < |wastebasket|
        invariant 0 <= i <= |wastebasket|
        invariant forall j :: 0 <= j < i ==> wastebasket[j].id != docId
      {
        if wastebasket[i].id == docId {
          WithoutKeepsOthers(wastebasket, i);
          var restored := wastebasket[i];
          wastebasket := Without(wastebasket, i);
          documents := documents + [restored];
          return Success;
        }
        i := i + 1;
      }
      return NotFound;
    }

    /** GET /api/clipboard. */
    method GetClipboard() returns (resp: Response)
      ensures resp.status == 200 && resp.body.Keys == {"content"} && resp.body["content"] == JString(clipboard)
    {
      resp := Response(200, map["content" := JString(clipboard)]);
    }

    /** PUT /api/clipboard: the clipboard becomes the request's content, or ""
        when the request has none. */
    method UpdateClipboard(req: ClipboardRequest) returns (resp: Response)
      modifies this
      ensures clipboard == req.content.GetOr("")
      ensures documents == old(documents) && wastebasket == old(wastebasket)
      ensures resp == Success
    {
      clipboard := req.content.GetOr("");
      resp := Success;
    }
  }

  /** A caller's view: a created document is found, moves to the wastebasket and
      back; the clipboard keeps the last write. */
  method ServiceScenario(now: real)
  {
    var state := new DesktopState();
    var r := state.CreateDocument(CreateRequest(Some("write"), Some("Memo")), now, "1700000000000");
    var doc := Document(Some("write"), Some("Memo"), "", now, "1700000000000");
    assert state.documents == [doc];
    r := state.GetDocument("1700000000000");
    assert r == DocResponse(doc);
    r := state.DeleteDocument("1700000000000");
    assert r == Success && state.documents == [] && state.wastebasket == [doc];
    r := state.GetDocument("1700000000000");
    assert r == NotFound;
    r := state.RestoreDocument("1700000000000");
    assert r == Success && state.documents == [doc] && state.wastebasket == [];
    r := state.UpdateClipboard(ClipboardRequest(Some("a")));
    r := state.UpdateClipboard(ClipboardRequest(Some("b")));
    r := state.GetClipboard();
    assert r.body["content"] == JString("b");
    r := state.UpdateClipboard(ClipboardRequest(None));
    assert state.clipboard == "";
  }
}
