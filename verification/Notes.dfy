/**
 * The reading-notes page: a list of notes kept in the session, saved from
 * a text area, counted, and deleted one at a time.
 */
module Notes {
  import opened Outcomes
  import opened Strings
  import WebUtils

  /** One saved note; `timestamp` is the clock reading passed in at save time. */
  datatype Note = Note(text: string, timestamp: string, tags: seq<string>)

  const NotesKey: string := "notes"

  /** The page's first step: the session's notes, or an empty list when it has none. */
  function Opened(session: map<string, seq<Note>>): (notes: seq<Note>)
    ensures NotesKey in session ==> notes == session[NotesKey]
    ensures NotesKey !in session ==> notes == []
  {
    WebUtils.InitVar(session, NotesKey, [])[NotesKey]
  }

  /** Every note the page can have saved: some text and no tags. */
  predicate Saved(notes: seq<Note>) {
    forall k :: 0 <= k < |notes| ==> notes[k].text != "" && notes[k].tags == []
  }

  /** "Save": a non-empty text becomes one new note at the end; an empty one changes nothing. */
  function Save(notes: seq<Note>, text: string, stamp: string): (r: seq<Note>)
    ensures |r| == |notes| + (if text != "" then 1 else 0)
    ensures r[..|notes|] == notes
    ensures text != "" ==> r[|notes|] == Note(text, stamp, [])
    ensures Saved(notes) ==> Saved(r)
  {
    if text != "" then notes + [Note(text, stamp, [])] else notes
  }

  const CountLabel: string := "总笔记数: "

  /** The count shown beside the notes: the decimal spelling of how many there are. */
  function Count(notes: seq<Note>): (line: string)
    ensures StartsWith(line, CountLabel)
    ensures var digits := line[|CountLabel|..]; IsDigits(digits) && DigitsValue(digits) == |notes|
  {
    NatToStringValue(|notes|);
    var line := CountLabel + NatToString(|notes|);
    assert line[..|CountLabel|] == CountLabel;
    assert line[|CountLabel|..] == NatToString(|notes|);
    line
  }

  /** "Delete" on note `i`: `pop(i)`, which raises past the end. */
  function Delete(notes: seq<Note>, i: nat): (r: Result<seq<Note>>)
    ensures r.Ok? <==> i < |notes|
    ensures r.Err? ==> r.error == IndexError
    ensures r.Ok? ==> |r.value| == |notes| - 1
    ensures r.Ok? ==> forall k :: 0 <= k < i ==> r.value[k] == notes[k]
    ensures r.Ok? ==> forall k :: i <= k < |r.value| ==> r.value[k] == notes[k + 1]
    ensures r.Ok? && Saved(notes) ==> Saved(r.value)
  {
    if i < |notes| then Ok(notes[..i] + notes[i + 1..]) else Err(IndexError)
  }

  /** Deleting takes out exactly the chosen note. */
  lemma DeleteRemovesOne(notes: seq<Note>, i: nat)
    requires i < |notes|
    ensures multiset(Delete(notes, i).value) == multiset(notes) - multiset{notes[i]}
  {
    assert notes == notes[..i] + [notes[i]] + notes[i + 1..];
  }

  /** Deleting the note just saved gives the notes back. */
  lemma SaveThenDelete(notes: seq<Note>, text: string, stamp: string)
    requires text != ""
    ensures Delete(Save(notes, text, stamp), |notes|) == Ok(notes)
  {
    var saved := Save(notes, text, stamp);
    assert saved[..|notes|] == notes && saved[|notes| + 1..] == [];
    assert Delete(saved, |notes|) == Ok(saved[..|notes|] + saved[|notes| + 1..]);
    assert notes + [] == notes;
  }

  /** What one rerun of the page does: save a text, delete note `i`, or press a button that does nothing. */
  datatype Action = SaveNote(text: string, stamp: string) | DeleteNote(i: nat) | EditNote(i: nat)

  /** One action; "Edit" is a button without effect. */
  function Step(notes: seq<Note>, a: Action): (r: Result<seq<Note>>)
    ensures r.Err? <==> a.DeleteNote? && a.i >= |notes|
  {
    match a
    case SaveNote(text, stamp) => Ok(Save(notes, text, stamp))
    case DeleteNote(i) => Delete(notes, i)
    case EditNote(_) => Ok(notes)
  }

  /** How many notes the actions add: one per non-empty save, less one per delete. */
  function NetAdded(actions: seq<Action>): int {
    if |actions| == 0 then 0
    else
      (match actions[0]
       case SaveNote(text, _) => if text != "" then 1 else 0
       case DeleteNote(_) => -1
       case EditNote(_) => 0) + NetAdded(actions[1..])
  }

  /** A session of actions from an opened page, stopping at the first that raises. */
  function Run(notes: seq<Note>, actions: seq<Action>): (r: Result<seq<Note>>)
    decreases |actions|
  {
    if |actions| == 0 then Ok(notes)
    else
      match Step(notes, actions[0])
      case Err(e) => Err(e)
      case Ok(next) => Run(next, actions[1..])
  }

  /**
   * A session that does not raise keeps every note a saved one, and the
   * count it ends with is the count it started with plus the saves less
   * the deletes.
   */
  lemma {:induction false} RunKeepsSaved(notes: seq<Note>, actions: seq<Action>)
    requires Saved(notes)
    ensures Run(notes, actions).Ok? ==>
              Saved(Run(notes, actions).value) && |Run(notes, actions).value| == |notes| + NetAdded(actions)
    decreases |actions|
  {
    if |actions| > 0 {
      match Step(notes, actions[0])
      case Err(_) =>
      case Ok(next) =>
        RunKeepsSaved(next, actions[1..]);
    }
  }
}
