/** The note-list state machine of the Yew `Model` component, as values:
    the component's state, the messages it receives, the result of one
    `update`, and what a whole session of messages does to the state. */
module NoteList {

  datatype Option<T> = None | Some(value: T)

  /** The messages the component reacts to. */
  datatype Msg =
    | HandleChangeInputValue(value: string)
    | AddNewNote
    | MarkNoteAsDone(note: string)

  /** The component's state: the draft in the input box, the notes, and the
      done notes (the latter never written after creation). */
  datatype State = State(value: string, notes: seq<string>, doneNotes: seq<string>)

  /** What one `update` produces: the new state, the should-render flag, and
      the message of the alert dialog raised during the update, if any. */
  datatype Transition = Transition(state: State, shouldRender: bool, alert: Option<string>)

  /** The "done / total" counter shown above the notes. */
  datatype Counter = Counter(done: nat, total: nat)

  /** Text of the dialog raised when an empty draft is submitted. */
  const EmptyNoteAlert: string := "note is empty"

  /** No stored note is the empty string. */
  predicate NotesNonEmpty(s: State) {
    forall i | 0 <= i < |s.notes| :: s.notes[i] != ""
  }

  /** The invariant of every state the component can reach from `create`. */
  predicate Valid(s: State) {
    NotesNonEmpty(s) && s.doneNotes == []
  }

  /** The state built by `create`. */
  function Init(): (s: State)
    ensures Valid(s)
    ensures s.value == "" && |s.notes| == 0
  {
    State("", [], [])
  }

  /** One call of `update`. */
  function Step(s: State, msg: Msg): (r: Transition)
    ensures r.shouldRender
    ensures r.state.doneNotes == s.doneNotes
    ensures r.alert.Some? <==> msg.AddNewNote? && s.value == ""
    ensures r.alert.Some? ==> r.alert.value == EmptyNoteAlert
    ensures msg.HandleChangeInputValue? ==>
      r.state.value == msg.value && r.state.notes == s.notes
    ensures msg.AddNewNote? ==>
      && r.state.value == s.value
      && s.notes <= r.state.notes
      && |r.state.notes| == |s.notes| + (if s.value == "" then 0 else 1)
      && (s.value != "" ==> r.state.notes[|s.notes|] == s.value)
    ensures msg.MarkNoteAsDone? ==> r.state == s
    ensures NotesNonEmpty(s) ==> NotesNonEmpty(r.state)
  {
    match msg
    case HandleChangeInputValue(v) =>
      Transition(s.(value := v), true, None)
    case AddNewNote =>
      if s.value != "" then
        Transition(s.(notes := s.notes + [s.value]), true, None)
      else
        Transition(s, true, Some(EmptyNoteAlert))
    case MarkNoteAsDone(_) =>
      Transition(s, true, None)
  }

  /** The state after the framework has dispatched `msgs` to `update`, one
      after the other, starting from `s`. */
  function Run(s: State, msgs: seq<Msg>): (r: State)
    ensures r.doneNotes == s.doneNotes
    ensures s.notes <= r.notes
    decreases |msgs|
  {
    if msgs == [] then s else Run(Step(s, msgs[0]).state, msgs[1..])
  }

  /** Number of alert dialogs raised while dispatching `msgs` from `s`. */
  function AlertCount(s: State, msgs: seq<Msg>): nat
    decreases |msgs|
  {
    if msgs == [] then 0
    else
      var t := Step(s, msgs[0]);
      (if t.alert.Some? then 1 else 0) + AlertCount(t.state, msgs[1..])
  }

  /** Number of `AddNewNote` messages in `msgs`. */
  function AddCount(msgs: seq<Msg>): nat {
    if msgs == [] then 0
    else (if msgs[0].AddNewNote? then 1 else 0) + AddCount(msgs[1..])
  }

  /** Reference definition of what a session stores: the draft in effect at
      each `AddNewNote`, whenever that draft is non-empty, in order. It
      follows only the draft, not the notes. */
  function Accepted(draft: string, msgs: seq<Msg>): (r: seq<string>)
    ensures forall i | 0 <= i < |r| :: r[i] != ""
    ensures |r| <= AddCount(msgs)
    decreases |msgs|
  {
    if msgs == [] then []
    else
      match msgs[0]
      case HandleChangeInputValue(v) => Accepted(v, msgs[1..])
      case AddNewNote =>
        (if draft != "" then [draft] else []) + Accepted(draft, msgs[1..])
      case MarkNoteAsDone(_) => Accepted(draft, msgs[1..])
  }

  /** The counter rendered by the view. */
  function DisplayedCounter(s: State): Counter {
    Counter(|s.doneNotes|, |s.notes|)
  }

  /** A session appends to the notes exactly the accepted drafts. */
  lemma {:induction false} RunAppendsAccepted(s: State, msgs: seq<Msg>)
    ensures Run(s, msgs).notes == s.notes + Accepted(s.value, msgs)
    decreases |msgs|
  {
    if msgs != [] {
      var t := Step(s, msgs[0]);
      RunAppendsAccepted(t.state, msgs[1..]);
      match msgs[0]
      case HandleChangeInputValue(v) =>
      case AddNewNote =>
        if s.value != "" {
          assert t.state.notes == s.notes + [s.value];
          assert s.notes + [s.value] + Accepted(s.value, msgs[1..])
              == s.notes + ([s.value] + Accepted(s.value, msgs[1..]));
        } else {
          assert [] + Accepted(s.value, msgs[1..]) == Accepted(s.value, msgs[1..]);
        }
      case MarkNoteAsDone(_) =>
    }
  }

  /** Every session keeps the invariant. */
  lemma {:induction false} RunPreservesValid(s: State, msgs: seq<Msg>)
    requires Valid(s)
    ensures Valid(Run(s, msgs))
    decreases |msgs|
  {
    if msgs != [] {
      RunPreservesValid(Step(s, msgs[0]).state, msgs[1..]);
    }
  }

  /** Each `AddNewNote` either stores one note or raises one alert. */
  lemma {:induction false} AddStoresOrAlerts(s: State, msgs: seq<Msg>)
    ensures |Run(s, msgs).notes| + AlertCount(s, msgs) == |s.notes| + AddCount(msgs)
    decreases |msgs|
  {
    if msgs != [] {
      AddStoresOrAlerts(Step(s, msgs[0]).state, msgs[1..]);
    }
  }

  /** From `create`, the counter always shows zero done notes, out of as many
      notes as drafts were accepted. */
  lemma ReachableCounter(msgs: seq<Msg>)
    ensures DisplayedCounter(Run(Init(), msgs)) == Counter(0, |Accepted("", msgs)|)
  {
    RunAppendsAccepted(Init(), msgs);
  }

  /** Typing a non-empty text and pressing "create note" adds exactly that text
      as the last note and leaves the draft in place. */
  lemma ChangeThenAdd(s: State, v: string)
    requires v != ""
    ensures Run(s, [HandleChangeInputValue(v), AddNewNote]).notes == s.notes + [v]
    ensures Run(s, [HandleChangeInputValue(v), AddNewNote]).value == v
  {
    RunAppendsAccepted(s, [HandleChangeInputValue(v), AddNewNote]);
    assert [HandleChangeInputValue(v), AddNewNote][1..] == [AddNewNote];
    assert [AddNewNote][1..] == [];
  }
}
