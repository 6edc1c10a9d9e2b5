/** The Yew component `Model` itself: an object whose `update` changes its
    fields in place. Its behaviour is specified by `NoteList.Step`. */
module Component {
  import opened NoteList

  class Model {
    var value: string
    var notes: seq<string>
    var doneNotes: seq<string>

    /** The current fields as a `NoteList.State` value. */
    function Snapshot(): State
      reads this
    {
      State(value, notes, doneNotes)
    }

    ghost predicate Valid()
      reads this
    {
      NoteList.Valid(Snapshot())
    }

    /** `create`: empty draft, no notes, no done notes. */
    constructor ()
      ensures Snapshot() == Init()
      ensures Valid()
    {
      value := "";
      notes := [];
      doneNotes := [];
    }

    /** `update`: applies one message to the fields and returns whether to
        re-render and the alert raised, if any. */
    method Update(msg: Msg) returns (shouldRender: bool, alert: Option<string>)
      modifies this
      ensures Snapshot() == Step(old(Snapshot()), msg).state
      ensures shouldRender == Step(old(Snapshot()), msg).shouldRender
      ensures alert == Step(old(Snapshot()), msg).alert
      ensures doneNotes == old(doneNotes)
      ensures msg.AddNewNote? && old(value) != "" ==> notes == old(notes) + [old(value)]
      ensures old(Valid()) ==> Valid()
    {
      match msg
      case HandleChangeInputValue(v) =>
        value := v;
        shouldRender, alert := true, None;
      case AddNewNote =>
        if value != "" {
          notes := notes + [value];
          alert := None;
        } else {
          alert := Some(EmptyNoteAlert);
        }
        shouldRender := true;
      case MarkNoteAsDone(_) =>
        shouldRender, alert := true, None;
    }

    /** `change`: the component has no properties, so a change of properties
        never asks for a re-render. */
    method Change() returns (shouldRender: bool)
      ensures !shouldRender
    {
      shouldRender := false;
    }
  }
}
