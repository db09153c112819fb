# Desktop prototype: scheduler and document registry in Dafny

This project models the state-machine core of a "Lisa-ish" desktop prototype:

- **Scheduler.** `main.py` has a cooperative round-robin scheduler (`CoopScheduler`). It keeps a FIFO queue of generator tasks. Each tick resumes the head task once and puts it back at the tail, unless the task raised `StopIteration`.
- **Periodic tasks.** There are two: the status blink of a document window, whose loop yields 25 times per round, and the title-bar clock, whose loop yields 40 times per round.
- **Desktop state.** `main.py` also holds the documents, the wastebasket and the clipboard. Documents are created from stationery pads, thrown away, restored and saved.
- **HTTP mirror.** `api/index.py` is an independent copy of the same data model. It identifies documents by a string id and changes its state through seven request handlers.

Files:

- `wrappers.dfy`: the `Option` type.
- `scheduling.dfy`: tasks as an explicit step-state datatype (`Advance` is one `next(gen)`), the queue as a class, and the fairness lemmas.
- `desktop.dfy`: `Document` as a class, because its content is overwritten in place. `Desktop` is a class holding `documents`, `wastebasket`, `clipboard` and its scheduler.
- `webapi.dfy`: documents as values and the service state as a class. Each handler is a method. The four that look a document up by id (`GetDocument`, `UpdateDocument`, `DeleteDocument`, `RestoreDocument`) carry the source's linear search as a `while` loop; `CreateDocument`, `GetClipboard` and `UpdateClipboard` have no loop, as in the source.

Four behaviours of the code that a reader might not expect:

- **No `NotFound` on the desktop.** Throw-away and restore do not fail when the document is absent. They still append it to the target list, so a document thrown away twice appears twice in the wastebasket. `ThrowAwayDocument`, `RestoreDocument` and `ThrowAwayTwiceScenario` show this.
- **Documents match by field equality, not identity.** On the desktop, "the document" is matched with Python `==` on the `Document` dataclass. `list.remove` removes the first element whose type, name, content and creation time are all equal to the argument. That element need not be the same object (`Same`, `FirstMatch`).
- **Task faults are not isolated.** A task step that raises anything other than `StopIteration` propagates out of `run`.
- **The wastebasket window selects what it displays.** It uses the same last-50 window both to display entries and to pick the one to restore. When the listing was refreshed after the last change to the wastebasket, line k is the k-th newest entry (`WastebasketListing`, `SelectForRestore`), so the 50-entry window itself causes no mis-selection. A stale listing can still mis-select: see "## Left out".

## Model

| member | source | states |
|---|---|---|
| `Scheduling.CoopScheduler.constructor` | main.py:9-12 | a new scheduler has the given tick delay and an empty queue |
| `Scheduling.CoopScheduler.Add` | main.py:14-15 | the task is appended at the tail; the earlier tasks and their order are unchanged |
| `Scheduling.Advance` | main.py:401-414 | one `next(gen)`: a periodic loop never ends and keeps its kind, starting a new round exactly when it resumes at the top of its loop; a finite task ends exactly when its yields are used up; a task that yields is valid (its phase is below its period) |
| `Scheduling.Fresh` | main.py:84 | a task not yet started is valid and periodic, of the given kind |
| `Scheduling.Tick` | main.py:17-24 | an empty queue stays empty; otherwise one task fewer plus what the head leaves behind, with the head, resumed, at the tail unless it finished |
| `Scheduling.TickFront` | main.py:17-24 | a tick takes the head off and keeps the rest of the queue, in order, in front of what the head leaves behind |
| `Scheduling.TickKeepsValid` | main.py:17-24 | a tick keeps every queued task valid |
| `Scheduling.CoopScheduler.Run` | main.py:17-24 | empty queue: unchanged; a head that yields moves, resumed, to the tail and the length is kept; a head that raises `StopIteration` is dropped and the length decreases by one |
| `Scheduling.FirstRound` | main.py:17-22 | after k <= N ticks the first k tasks have each been resumed exactly once, in queue order, and sit behind the N-k tasks not yet resumed |
| `Scheduling.HeadOrder` | main.py:17-19 | tick k+1 resumes the task that was at position k of the original queue |
| `Scheduling.SurvivorsEndless` | main.py:20-22 | resuming never-ending tasks drops none of them and keeps their order |
| `Scheduling.RoundRobin` | main.py:17-22 | N ticks over N never-ending tasks resume each exactly once and give back the queue in its original order |
| `Scheduling.PeriodicSchedule` | main.py:401-414 | a fresh blink (period 25) or clock (period 40) task resumed rounds*P+phase times is at that phase and has started one loop round per started block of P resumptions: the first on its first resumption, then one every P |
| `Scheduling.FiniteStops` | main.py:20-24 | a task that yields n more times survives n resumptions and ends with `StopIteration` on the next |
| `DesktopApp.Document.constructor` | main.py:29-34 | a document holds the given type, name, content and creation time |
| `DesktopApp.Document.Save` | main.py:374-376 | saving overwrites the content with the window's text |
| `DesktopApp.Same` | main.py:29-30 | Python `==` on the dataclass compares the four fields; an object is always equal to itself |
| `DesktopApp.FirstMatch` | main.py:256 | the position `list.remove` picks: the first element equal to the document, or none when no element is equal |
| `DesktopApp.RemoveFirst` | main.py:255-258 | removes exactly the first equal element and keeps the others in order; with no equal element the list is unchanged |
| `DesktopApp.RestoreUndoesThrowAway` | main.py:253-267 | when the wastebasket held nothing equal to d, restoring d after throwing it away removes exactly the appended d and gives back the earlier wastebasket |
| `DesktopApp.LastN` | main.py:129 | Python's `s[-n:]` is the suffix of length min(n, len(s)) for n > 0, and the whole list for n = 0 (`s[-0:]` is `s[0:]`) |
| `DesktopApp.ReversedIndex` | main.py:288 | `reversed` keeps the length and puts element len-1-k at position k |
| `DesktopApp.WastebasketListing` | main.py:288 | the wastebasket window shows min(50, len) entries, and line k is the k-th newest entry |
| `DesktopApp.SelectForRestore` | main.py:291-304 | empty wastebasket: no-op; no selection: the newest entry; selected line k: the entry len-1-k when it is in the 50-entry window, otherwise an `IndexError` |
| `DesktopApp.Desktop.constructor` | main.py:43-84 | empty clipboard, documents and wastebasket; the scheduler holds just a fresh clock task |
| `DesktopApp.Desktop.DesktopIcons` | main.py:129 | the desktop shows the last min(12, len) documents, in insertion order |
| `DesktopApp.Desktop.DeskMenuDocuments` | main.py:196 | the Desk menu lists the last min(20, len) documents, in insertion order |
| `DesktopApp.Desktop.NewDocFromStationery` | main.py:220-227 | a cancelled or empty name changes nothing; otherwise one fresh document with the given type and name and content "" is appended, and its window's blink task is registered |
| `DesktopApp.Desktop.ClearClipboard` | main.py:233-234 | the clipboard becomes "" and the lists are unchanged |
| `DesktopApp.Desktop.Copy` | main.py:362-367 | the clipboard becomes the selection, or "" when nothing is selected |
| `DesktopApp.Desktop.ThrowAwayDocument` | main.py:253-259 | the first equal document leaves `documents` if there is one; `doc` is appended to the wastebasket in every case, so the total grows by one when it was absent |
| `DesktopApp.Desktop.RestoreDocument` | main.py:262-267 | the first equal document leaves the wastebasket if there is one; `doc` is appended to `documents` in every case |
| `DesktopApp.Desktop.RestoreSelected` | main.py:291-306 | the entry picked by `SelectForRestore` is moved back and the total count across both lists is kept; otherwise nothing changes |
| `WebApi.ToDict` | api/index.py:17-24 | the dict has exactly the keys id, doc_type, name, content and created_at |
| `WebApi.ToDictRoundTrip` | api/index.py:17-24 | every field is copied unchanged: the document is recovered from its dict |
| `WebApi.FindById` | api/index.py:70-71 | the index of the first document with the id, or none when no document has it |
| `WebApi.Without` | api/index.py:89 | `pop(i)` shortens the list by exactly one |
| `WebApi.WithoutKeepsOthers` | api/index.py:89 | `pop(i)` removes exactly element i; the others keep their order, and the multiset is preserved |
| `WebApi.Updated` | api/index.py:80-81 | an update never changes a document's id, type or creation time |
| `WebApi.FindAfterReplace` | api/index.py:78-82 | updating a document in place changes no lookup by id |
| `WebApi.UpdateThenGet` | api/index.py:68-82 | a get after an update of the same id returns the updated document, with the new content or, when it was absent from the request, the old one |
| `WebApi.RestoreUndoesDelete` | api/index.py:85-101 | when the wastebasket held no document with the id, restoring after a delete finds exactly the appended document and gives back the earlier wastebasket |
| `WebApi.DesktopState.constructor` | api/index.py:27-36 | empty clipboard and lists, and the three stationery pads |
| `WebApi.DesktopState.CreateDocument` | api/index.py:57-66 | exactly one document with content "" is appended; the wastebasket and clipboard are unchanged; the response is that document's dict |
| `WebApi.DesktopState.GetDocument` | api/index.py:68-73 | status 200 iff some active document has the id, and then the dict of the first such document; otherwise the 404 body; the wastebasket is never searched |
| `WebApi.DesktopState.UpdateDocument` | api/index.py:75-83 | only the first matching document changes, with absent fields kept; all other documents, the wastebasket and the clipboard are unchanged; an absent id gives 404 with no change |
| `WebApi.DesktopState.DeleteDocument` | api/index.py:85-92 | the first matching document moves to the end of the wastebasket and the multiset of all documents is kept; an absent id gives 404 with no change |
| `WebApi.DesktopState.RestoreDocument` | api/index.py:94-101 | the first matching wastebasket document moves to the end of the documents and the multiset is kept; an absent id gives 404 with no change |
| `WebApi.DesktopState.GetClipboard` | api/index.py:103-105 | the body is exactly `{content: clipboard}` with status 200 |
| `WebApi.DesktopState.UpdateClipboard` | api/index.py:107-111 | the clipboard becomes the request's content, or "" when it has none (last write wins); the lists are unchanged |

## Left out

- **Rendering and wiring.** tkinter rendering, layout, menus, event binding and the windows themselves are not modelled. A dialog's answer (the document name, a listbox selection) is a parameter. The yes/no confirmation before a throw-away (main.py:379-382) is left to the caller: `ThrowAwayDocument` is its "yes" branch, and "no" changes nothing. The clipboard window's "Update clipboard" button (main.py:246-248) writes the clipboard with the text box's contents; that is the same state change as `Copy(Some(text))`, and no separate operation models it. Opening a document window is modelled only by the blink task it registers, and only where `NewDocFromStationery` opens the new document. Opening an existing document from its icon (main.py:137) or from the Desk menu (main.py:197) also registers a blink task (main.py:390); no operation models that.
- **The tick timer.** The re-arming of the tick through `root.after` is an external timer: each call of `Run` is one tick.
- **What the periodic tasks publish.** The window title and the status text are not modelled. A task counts the loop rounds it has started instead. At the top of each round the clock republishes its title, while the blink task sets its status only when that status reads "Ready".
- **Generator identity.** A task is a value, whereas a Python generator is a shared mutable object. If the same generator were added twice, the source would advance that one generator twice per round; the model advances two independent copies. The callers always add a newly created generator (main.py:84, 390).
- **Stale wastebasket listings.** `SelectForRestore` indexes the current wastebasket, as main.py:304 does. The listbox is refilled only when its window opens and after a restore from that window (main.py:299, 306, 310). A throw-away or a restore from a second wastebasket window leaves an open listing stale, and a selected line may then restore a different document from the one it shows. The model does not hold the listbox contents, so it does not capture that mismatch.
- **Exceptions other than `StopIteration` in a task step.** In the source they propagate out of `run`: the popped task is lost and the next tick is never scheduled. The model has no faulting task, and it does not claim the scheduler isolates faults.
- **Closing a document window.** This does not stop its blink task in the source, and the model does not stop it either. The close itself is UI: its save of the text is `Document.Save`.
- **Wall-clock readings.** `time.time`, `time.strftime` and the millisecond id are opaque inputs. This leaves out the default document name offered by the name dialog and the clock's title string.
- **`new_from_stationery_prompt`.** Its `strip().lower()` of the typed type is not modelled: there is no case folding here.
- **Flask routing, `GET /api/desktop`, templates and static files.** These are framework glue.
- **Request bodies.** The request body is assumed to be a JSON object whose fields are strings. A JSON `null` or a non-string value in a request is not modelled.
- **Concurrent requests.** Each handler is modelled as one atomic transition, so requests run one at a time. In the source the search and the `pop(i)` of delete and restore (api/index.py:87-90, 96-99) are separate steps. Under a threaded server two requests can interleave between them: a second `pop(i)` may then remove a different document or raise `IndexError`. The model does not capture such interleavings.
- **Object identity in the HTTP mirror.** Its documents are values. This is faithful because a document object there only ever sits at one position: creation makes a new one, and delete and restore move it with `pop` and `append`.
