/** The document, wastebasket and clipboard state of the tkinter desktop
    (main.py). Windows, menus and dialogs are left to the UI: a dialog's answer
    is a parameter, and opening a document window is modelled only by the blink
    task it registers with the scheduler. */
module DesktopApp {
  import opened Wrappers
  import opened Scheduling

  /** A document. Only `content` is ever reassigned (by Save and by closing its
      window); the other fields keep their creation values. */
  class Document {
    const docType: string
    const name: string
    var content: string
    const createdAt: real

    constructor (docType: string, name: string, content: string, createdAt: real)
      ensures this.docType == docType && this.name == name
      ensures this.content == content && this.createdAt == createdAt
    {
      this.docType := docType;
      this.name := name;
      this.content := content;
      this.createdAt := createdAt;
    }

    /** Save (and close) of the document window: the text box becomes the content. */
    method Save(text: string)
      modifies this
      ensures content == text
    {
      content := text;
    }
  }

  /** Python `==` on the `Document` dataclass: the four fields compared as a tuple.
      `list.remove` uses it, so a distinct but equal document also matches. */
  predicate Same(a: Document, b: Document): (r: bool)
    reads a, b
    ensures a == b ==> r
  {
    a.docType == b.docType && a.name == b.name && a.content == b.content && a.createdAt == b.createdAt
  }

  /** The position `list.remove(d)` would remove from `s`. */
  function FirstMatch(s: seq<Document>, d: Document): (r: Option<nat>)
    reads s, d
    ensures r.Some? ==> r.value < |s| && Same(s[r.value], d)
    ensures r.Some? ==> forall j :: 0 <= j < r.value ==> !Same(s[j], d)
    ensures r.None? ==> forall j :: 0 <= j < |s| ==> !Same(s[j], d)
  {
    if s == [] then None
    else if Same(s[0], d) then Some(0)
    else match FirstMatch(s[1..], d)
      case None => None
      case Some(i) => Some(i + 1)
  }

  /** `list.remove(d)` with the `ValueError` of a missing element swallowed. */
  function RemoveFirst(s: seq<Document>, d: Document): (r: seq<Document>)
    reads s, d
    ensures (forall j :: 0 <= j < |s| ==> !Same(s[j], d)) ==> r == s
    ensures forall i :: 0 <= i < |s| && Same(s[i], d) && (forall j :: 0 <= j < i ==> !Same(s[j], d)) ==>
      r == s[..i] + s[i + 1..] && |r| == |s| - 1
  {
    match FirstMatch(s, d)
    case None => s
    case Some(i) => s[..i] + s[i + 1..]
  }

  /** `list.remove` takes one element away exactly when some element matches. */
  lemma RemoveFirstLength(s: seq<Document>, d: Document)
    ensures |RemoveFirst(s, d)| == if FirstMatch(s, d).Some? then |s| - 1 else |s|
  {
  }

  /** Restore after throw-away: a document appended to a wastebasket that held
      nothing equal to it is the one the next restore removes, and the
      wastebasket is back to what it was. */
  lemma RestoreUndoesThrowAway(w: seq<Document>, d: Document)
    requires forall j :: 0 <= j < |w| ==> !Same(w[j], d)
    ensures RemoveFirst(w + [d], d) == w
  {
    var s := w + [d];
    assert Same(s[|w|], d);
    assert forall j :: 0 <= j < |w| ==> !Same(s[j], d);
    assert s[..|w|] == w;
  }

  /** Python's `s[-n:]`: the last n elements, or all of them if there are
      fewer; `s[-0:]` is `s[0:]`, the whole list. */
  function LastN<T>(s: seq<T>, n: nat): (r: seq<T>)
    ensures |r| == if n == 0 || |s| <= n then |s| else n
    ensures s == s[..|s| - |r|] + r
  {
    if n == 0 || |s| <= n then s else s[|s| - n..]
  }

  /** Python's `reversed(s)`. */
  function Reversed<T>(s: seq<T>): seq<T> {
    if s == [] then [] else [s[|s| - 1]] + Reversed(s[..|s| - 1])
  }

  lemma {:induction false} ReversedIndex<T>(s: seq<T>)
    ensures |Reversed(s)| == |s|
    ensures forall k :: 0 <= k < |s| ==> Reversed(s)[k] == s[|s| - 1 - k]
  {
    if s != [] {
      ReversedIndex(s[..|s| - 1]);
    }
  }

  /** Documents shown as icons on the desktop, and in the Desk menu. */
  const DesktopIconCount: nat := 12
  const DeskMenuCount: nat := 20
  /** Entries shown in the wastebasket window. */
  const WastebasketWindow: nat := 50

  /** The wastebasket window's list, `reversed(w[-50:])`: min(50, |w|) lines,
      line k being the k-th newest entry. */
  function WastebasketListing(w: seq<Document>): (r: seq<Document>)
    ensures |r| == if |w| <= WastebasketWindow then |w| else WastebasketWindow
    ensures forall k :: 0 <= k < |r| ==> r[k] == w[|w| - 1 - k]
  {
    ReversedIndex(LastN(w, WastebasketWindow));
    Reversed(LastN(w, WastebasketWindow))
  }

  /** Result of "Restore selected (or last)". */
  datatype RestoreOutcome =
    | Restored(doc: Document)
    | EmptyWastebasket
    | SelectionOutOfRange   // IndexError raised in the Tk callback, nothing changed

  /** Which wastebasket entry "Restore selected (or last)" picks: the newest
      one when no line is selected, otherwise the document shown on the
      selected line of the wastebasket window (newest first, last 50 only). */
  function SelectForRestore(w: seq<Document>, selection: Option<nat>): (r: RestoreOutcome)
    ensures w == [] ==> r == EmptyWastebasket
    ensures w != [] && selection == None ==> r == Restored(w[|w| - 1])
    ensures w != [] && selection.Some? ==>
      if selection.value < |w| && selection.value < WastebasketWindow
      then r == Restored(w[|w| - 1 - selection.value])
      else r == SelectionOutOfRange
  {
    if w == [] then EmptyWastebasket
    else match selection
      case None => Restored(w[|w| - 1])
      case Some(idx) =>
        var listing := WastebasketListing(w);
        if idx < |listing| then
          assert listing[idx] == w[|w| - 1 - idx];
          Restored(listing[idx])
        else
          SelectionOutOfRange
  }

  /** The desktop's state. */
  class Desktop {
    var clipboard: string
    var documents: seq<Document>
    var wastebasket: seq<Document>
    const scheduler: CoopScheduler

    /** A new desktop: empty lists and clipboard; the scheduler is started on its
        empty queue and then given the clock task. */
    constructor ()
      ensures clipboard == "" && documents == [] && wastebasket == []
      ensures fresh(scheduler) && scheduler.tickMs == DefaultTickMs
      ensures scheduler.tasks == [Fresh(Clock)]
    {
      clipboard := "";
      documents := [];
      wastebasket := [];
      var s := new CoopScheduler(DefaultTickMs);
      s.Run();
      s.Add(Fresh(Clock));
      scheduler := s;
    }

    /** Documents shown as desktop icons: the 12 newest, oldest first. */
    function DesktopIcons(): (r: seq<Document>)
      reads this
      ensures |r| == if |documents| <= DesktopIconCount then |documents| else DesktopIconCount
      ensures documents == documents[..|documents| - |r|] + r
    {
      LastN(documents, DesktopIconCount)
    }

    /** Documents listed in the Desk menu: the 20 newest, oldest first. */
    function DeskMenuDocuments(): (r: seq<Document>)
      reads this
      ensures |r| == if |documents| <= DeskMenuCount then |documents| else DeskMenuCount
      ensures documents == documents[..|documents| - |r|] + r
    {
      LastN(documents, DeskMenuCount)
    }

    /** New document from a stationery pad; `answer` is the name dialog's result
        (None when cancelled). An empty or cancelled name changes nothing;
        otherwise the new, empty document is appended and its window opened,
        which registers a blink task. */
    method NewDocFromStationery(docType: string, answer: Option<string>, now: real)
      returns (created: Option<Document>)
      modifies this, scheduler
      ensures answer == None || answer == Some("") ==>
        created == None && documents == old(documents) && scheduler.tasks == old(scheduler.tasks)
      ensures answer != None && answer != Some("") ==>
        && created.Some? && fresh(created.value)
        && created.value.docType == docType && created.value.name == answer.value
        && created.value.content == "" && created.value.createdAt == now
        && documents == old(documents) + [created.value]
        && scheduler.tasks == old(scheduler.tasks) + [Fresh(Blink)]
      ensures wastebasket == old(wastebasket) && clipboard == old(clipboard)
    {
      if answer == None || answer == Some("") {
        return None;
      }
      var doc := new Document(docType, answer.value, "", now);
      documents := documents + [doc];
      scheduler.Add(Fresh(Blink));
      created := Some(doc);
    }

    method ClearClipboard()
      modifies this
      ensures clipboard == ""
      ensures documents == old(documents) && wastebasket == old(wastebasket)
    {
      clipboard := "";
    }

    /** Copy in a document window: the selected text, or "" when nothing is selected. */
    method Copy(selection: Option<string>)
      modifies this
      ensures clipboard == selection.GetOr("")
      ensures documents == old(documents) && wastebasket == old(wastebasket)
    {
      clipboard := selection.GetOr("");
    }

    /** Throw away: the first equal document leaves `documents`, if there is one,
        and `doc` is appended to the wastebasket in every case. */
    method ThrowAwayDocument(doc: Document)
      modifies this
      ensures documents == RemoveFirst(old(documents), doc)
      ensures wastebasket == old(wastebasket) + [doc]
      ensures clipboard == old(clipboard)
      ensures |documents| + |wastebasket| ==
        |old(documents)| + |old(wastebasket)| + (if FirstMatch(old(documents), doc).None? then 1 else 0)
    {
      var kept := RemoveFirst(documents, doc);
      RemoveFirstLength(documents, doc);
      documents, wastebasket := kept, wastebasket + [doc];
    }

    /** Restore: the first equal document leaves the wastebasket, if there is one,
        and `doc` is appended to `documents` in every case. */
    method RestoreDocument(doc: Document)
      modifies this
      ensures wastebasket == RemoveFirst(old(wastebasket), doc)
      ensures documents == old(documents) + [doc]
      ensures clipboard == old(clipboard)
      ensures |documents| + |wastebasket| ==
        |old(documents)| + |old(wastebasket)| + (if FirstMatch(old(wastebasket), doc).None? then 1 else 0)
    {
      var kept := RemoveFirst(wastebasket, doc);
      RemoveFirstLength(wastebasket, doc);
      wastebasket, documents := kept, documents + [doc];
    }

    /** "Restore selected (or last)": the entry chosen by `SelectForRestore` is
        restored; nothing changes when there is none. */
    method RestoreSelected(selection: Option<nat>) returns (outcome: RestoreOutcome)
      modifies this
      ensures outcome == SelectForRestore(old(wastebasket), selection)
      ensures outcome.Restored? ==>
        && wastebasket == RemoveFirst(old(wastebasket), outcome.doc)
        && documents == old(documents) + [outcome.doc]
        && |documents| + |wastebasket| == |old(documents)| + |old(wastebasket)|
      ensures !outcome.Restored? ==> documents == old(documents) && wastebasket == old(wastebasket)
      ensures clipboard == old(clipboard)
    {
      outcome := SelectForRestore(wastebasket, selection);
      if outcome.Restored? {
        var k :| 0 <= k < |wastebasket| && wastebasket[k] == outcome.doc;
        assert Same(wastebasket[k], outcome.doc);
        RestoreDocument(outcome.doc);
      }
    }
  }

  /** A caller's view: create "Memo", save "X", throw it away, restore it. The
      document comes back with its name and content; throwing it away twice in a
      row puts it in the wastebasket twice. */
  method MemoScenario(now: real)
  {
    var desk := new Desktop();
    var created := desk.NewDocFromStationery("write", Some("Memo"), now);
    var doc := created.value;
    assert desk.documents == [doc] && doc.docType == "write" && doc.content == "";
    doc.Save("X");
    assert Same(desk.documents[0], doc);
    desk.ThrowAwayDocument(doc);
    assert desk.documents == [] && desk.wastebasket == [doc];
    assert Same(desk.wastebasket[0], doc);
    desk.RestoreDocument(doc);
    assert desk.documents == [doc] && desk.wastebasket == [];
    assert doc.name == "Memo" && doc.content == "X";
  }

  /** Throwing the same document away twice files it twice in the wastebasket. */
  method ThrowAwayTwiceScenario(now: real)
  {
    var desk := new Desktop();
    var created := desk.NewDocFromStationery("write", Some("Memo"), now);
    var doc := created.value;
    desk.ThrowAwayDocument(doc);
    desk.ThrowAwayDocument(doc);
    assert desk.documents == [] && desk.wastebasket == [doc, doc];
  }
}
