# Notes component: a Dafny model

This project models the one piece of logic in the Yew "Notes" application: the
`Model` component in `src/main.rs`. The component keeps three pieces of state:

- the draft typed into the input box (`value`);
- the list of notes (`notes`);
- the list of done notes (`done_notes`).

It reacts to three messages. `HandleChangeInputValue(v)` replaces the draft.
`AddNewNote` appends the draft to the notes when the draft is non-empty. When
the draft is empty, it raises a "note is empty" alert instead. `MarkNoteAsDone`
only writes to the console. Every message asks for a re-render. `change` never
does, because the component has no properties.

The project has two modules:

- `NoteList` (`note_list.dfy`) holds the specification as values:
  - the state, the messages and one `update` step (`Step`);
  - a whole session of messages dispatched one after another (`Run`);
  - an independent definition of what a session stores (`Accepted`);
  - lemmas: sessions only append the accepted drafts, every stored note is
    non-empty, the done list is never touched, and every `AddNewNote` either
    stores a note or raises an alert.
- `Component` (`component.dfy`) holds the class `Model`. Its fields are the
  component's fields. `Update` changes them in place, and its contract ties
  the new fields to `NoteList.Step`.

In the source, the alert is a blocking host dialog. Here `Update` returns the
alert's text instead.

Later iterations of the application store `{text, done}` records, delete and
toggle notes, and persist them to local storage. `src/main.rs` does none of
this, and the model follows `src/main.rs`. A note is a plain string, not a
`{text, done}` record. Nothing is persisted. There is no delete and no
toggle-done operation.

## Model

| member | source | states |
|---|---|---|
| `NoteList.Init` | src/main.rs:23-30 | `create` starts with an empty draft and no notes, in a state that satisfies the invariant (every note non-empty, no done notes) |
| `NoteList.Step` | src/main.rs:32-53 | every message asks for a re-render and leaves the done notes alone. The "note is empty" alert is raised exactly when `AddNewNote` meets an empty draft. Changing the input sets the draft and keeps the notes. Adding with a non-empty draft puts exactly the draft after the old notes and keeps the draft; adding with an empty draft changes nothing. Marking done changes nothing. No step ever stores an empty note |
| `NoteList.Run` | src/main.rs:32-53 | a session of messages never touches the done notes and never removes or reorders notes: the old notes stay a prefix of the new ones |
| `NoteList.Accepted` | src/main.rs:40-45 | the drafts a session would store are all non-empty, and there are at most as many as there are `AddNewNote` messages |
| `NoteList.RunAppendsAccepted` | src/main.rs:32-53 | the notes after any session are exactly the old notes followed by the non-empty drafts in effect at each `AddNewNote`, in order |
| `NoteList.RunPreservesValid` | src/main.rs:23-53 | every state reachable by messages keeps the invariant: no empty note is stored and the done list stays empty |
| `NoteList.AddStoresOrAlerts` | src/main.rs:40-46 | over any session, the notes added plus the alerts raised equal the number of `AddNewNote` messages |
| `NoteList.ReachableCounter` | src/main.rs:82 | after any session from `create`, the counter `done / total` (modelled as `DisplayedCounter`) shows 0 done notes, out of a total equal to the number of accepted drafts |
| `NoteList.ChangeThenAdd` | src/main.rs:34-42 | typing a non-empty text and then adding appends exactly that text as the last note and leaves it in the draft |
| `Component.Model.constructor` | src/main.rs:23-30 | the new component's fields are the initial state, which satisfies the invariant |
| `Component.Model.Update` | src/main.rs:32-53 | the fields after the call, the should-render result and the alert are those of `Step` on the fields before the call. The done notes are untouched, and the invariant is preserved |
| `Component.Model.Change` | src/main.rs:55-60 | a change of properties never asks for a re-render |

## Left out

- The `view` markup (src/main.rs:62-101) is UI rendering; only the counter on line 82 is modelled (see `NoteList.ReachableCounter` above).
- `ComponentLink`, the input and button callbacks, and `yew::start_app` are framework plumbing. `Run` stands in for the framework dispatching messages one at a time.
- `DialogService::alert` is a host call. The model returns the alert text ("note is empty") instead of showing a dialog.
- `ConsoleService::log` in `MarkNoteAsDone` is a host call with no effect on the state, so it is dropped.
- Deleting notes, toggling done, `{text, done}` note records and local-storage persistence do not exist in `src/main.rs`, so they are not modelled.
- The commented-out checkbox on line 90 is dead code.
