/** The store as main.go keeps it: a table and a counter that the handlers
    update in place. Each method does what its handler does to them. Create,
    Update and Delete are proved against the transitions of the same name in
    module Notes, Get against Notes.Edit; List hands out the table as it is. */
module NoteServer {
  import opened Decimal
  import opened Notes

  class NoteStore {
    /** noteStore (main.go:24) */
    var notes: map<string, Note>
    /** id (main.go:25) */
    var id: nat

    function State(): (s: Store)
      reads this
      ensures s.notes == notes && s.id == id
    {
      Store(notes, id)
    }

    ghost predicate Valid()
      reads this
    {
      Notes.Valid(State())
    }

    /** Start-up: an empty table and the counter at zero. */
    constructor ()
      ensures Valid()
      ensures State() == Empty()
    {
      notes := map[];
      id := 0;
    }

    /** saveNote (main.go:63-69). The key is returned so that callers can name the note. */
    method Create(title: string, description: string, now: Time) returns (k: string)
      requires Valid()
      modifies this
      ensures Valid()
      ensures Step(State(), k) == Notes.Create(old(State()), title, description, now)
      ensures id == old(id) + 1 && k == Itoa(id)
      ensures k !in old(notes) && notes == old(notes)[k := Note(title, description, now)]
      ensures |notes| == |old(notes)| + 1
    {
      ghost var s := State();
      CreateIsFresh(s);
      CreateKeepsValid(s, title, description, now);
      var note := Note(title, description, now);
      id := id + 1;
      k := Itoa(id);
      notes := notes[k := note];
    }

    /** editNote (main.go:78-83): read-only lookup. */
    method Get(k: string) returns (r: Option<EditView>)
      ensures r == Edit(State(), k)
      ensures r.Some? <==> k in notes
      ensures r.Some? ==> r.value == EditView(notes[k], k)
    {
      if k in notes {
        r := Some(EditView(notes[k], k));
      } else {
        r := None;
      }
    }

    /** getNotes (main.go:52-54) hands the whole table to the list page. */
    method List() returns (m: map<string, Note>)
      ensures m.Keys == notes.Keys
      ensures forall k :: k in m ==> Edit(State(), k) == Some(EditView(m[k], k))
    {
      m := notes;
    }

    /** updateNote (main.go:92-102): delete the old entry and insert the new one,
        which together amount to one assignment that keeps the creation time. */
    method Update(k: string, title: string, description: string) returns (o: Outcome)
      requires Valid()
      modifies this
      ensures Valid()
      ensures Step(State(), o) == Notes.Update(old(State()), k, title, description)
      ensures o == Ok <==> k in old(notes)
      ensures id == old(id) && notes.Keys == old(notes).Keys
      ensures k in old(notes) ==> notes[k].createOn == old(notes)[k].createOn
      ensures k in old(notes) ==> notes == old(notes)[k := Note(title, description, old(notes)[k].createOn)]
      ensures k !in old(notes) ==> notes == old(notes)
    {
      ghost var s := State();
      UpdateKeepsValid(s, k, title, description);
      if k in notes {
        var note := Note(title, description, notes[k].createOn);
        notes := notes - {k};
        notes := notes[k := note];
        assert notes == s.notes[k := note] by {
          assert notes.Keys == s.notes.Keys;
          assert forall j :: j in notes ==> notes[j] == s.notes[k := note][j];
        }
        o := Ok;
      } else {
        o := NotFound;
      }
    }

    /** deleteNote (main.go:110-114). */
    method Delete(k: string) returns (o: Outcome)
      requires Valid()
      modifies this
      ensures Valid()
      ensures Step(State(), o) == Notes.Delete(old(State()), k)
      ensures o == Ok <==> k in old(notes)
      ensures id == old(id) && notes == old(notes) - {k}
    {
      ghost var s := State();
      DeleteKeepsValid(s, k);
      if k in notes {
        notes := notes - {k};
        o := Ok;
      } else {
        o := NotFound;
      }
    }
  }

  /** A sample session: two saves get keys "1" and "2"; deleting "1" leaves only
      the second note, a second delete of "1" is not found, and the next save
      gets "3", because deletes never rewind the counter. */
  method SampleSession(t1: Time, t2: Time)
  {
    var store := new NoteStore();
    var k1 := store.Create("Buy milk", "2%", t1);
    var k2 := store.Create("Call Bob", "", t2);
    assert k1 == "1" && k2 == "2";
    var o := store.Delete(k1);
    assert o == Ok;
    var e := store.Get("1");
    assert e == None;
    assert store.notes == map["2" := Note("Call Bob", "", t2)];
    var o2 := store.Delete("1");
    assert o2 == NotFound;
    var k3 := store.Create("Again", "x", t1);
    assert k3 == "3";
  }
}
