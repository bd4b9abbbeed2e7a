/** The note store as a value: the table of notes and the id counter that the
    handlers of main.go share, the transition each handler makes on them, and
    the properties those transitions keep. */
module Notes {
  import opened Decimal

  /** The creation instant, taken from the clock by the caller; the store never inspects it. */
  type Time(==)

  datatype Note = Note(title: string, description: string, createOn: Time)

  /** What the edit page is given: the note and its key (EditNote, main.go:19-22). */
  datatype EditView = EditView(note: Note, id: string)

  datatype Option<T> = None | Some(value: T)

  /** Outcome of an update or a delete: done, or the 404 branch. */
  datatype Outcome = Ok | NotFound

  /** The process-wide state: noteStore and id (main.go:24-25). */
  datatype Store = Store(notes: map<string, Note>, id: nat)

  /** A state transition together with what it answers. */
  datatype Step<T> = Step(store: Store, result: T)

  /** The state at start-up: an empty table and the counter at zero. */
  function Empty(): (s: Store)
    ensures |s.notes| == 0 && s.id == 0
  {
    Store(map[], 0)
  }

  /** k is the key the counter produced at some value 1 <= n <= id. */
  ghost predicate Issued(k: string, id: nat) {
    exists n: nat :: 1 <= n <= id && Itoa(n) == k
  }

  /** Every stored key was issued by an earlier save. */
  ghost predicate Valid(s: Store) {
    forall k :: k in s.notes ==> Issued(k, s.id)
  }

  /** saveNote (main.go:63-69): bump the counter, store the note under the
      decimal form of the new value, with no check on title or description. */
  function Create(s: Store, title: string, description: string, now: Time): (r: Step<string>)
    ensures r.store.id == s.id + 1 && r.result == Itoa(r.store.id)
    ensures r.store.notes.Keys == s.notes.Keys + {r.result}
    ensures r.store.notes[r.result] == Note(title, description, now)
    ensures forall k :: k in s.notes && k != r.result ==> r.store.notes[k] == s.notes[k]
  {
    var id := s.id + 1;
    var k := Itoa(id);
    Step(Store(s.notes[k := Note(title, description, now)], id), k)
  }

  /** editNote (main.go:78-83): the note and its key, or nothing; the store is only read. */
  function Edit(s: Store, k: string): (r: Option<EditView>)
    ensures r.Some? <==> k in s.notes
    ensures r.Some? ==> r.value.id == k && r.value.note == s.notes[k]
  {
    if k in s.notes then Some(EditView(s.notes[k], k)) else None
  }

  /** updateNote (main.go:92-102): new title and description, the creation time kept. */
  function Update(s: Store, k: string, title: string, description: string): (r: Step<Outcome>)
    ensures r.result == Ok <==> k in s.notes
    ensures r.store.id == s.id
    ensures r.store.notes.Keys == s.notes.Keys
    ensures k in s.notes ==> r.store.notes[k] == Note(title, description, s.notes[k].createOn)
    ensures forall j :: j in s.notes && j != k ==> r.store.notes[j] == s.notes[j]
    ensures k !in s.notes ==> r.store == s
  {
    if k in s.notes then
      Step(Store(s.notes[k := Note(title, description, s.notes[k].createOn)], s.id), Ok)
    else
      Step(s, NotFound)
  }

  /** deleteNote (main.go:110-114): remove the entry, or the 404 branch. */
  function Delete(s: Store, k: string): (r: Step<Outcome>)
    ensures r.result == Ok <==> k in s.notes
    ensures r.store.id == s.id
    ensures r.store.notes.Keys == s.notes.Keys - {k}
    ensures forall j :: j in r.store.notes ==> r.store.notes[j] == s.notes[j]
    ensures k !in s.notes ==> r.store == s
  {
    if k in s.notes then Step(Store(s.notes - {k}, s.id), Ok) else Step(s, NotFound)
  }

  /** The key a save would use is not in a valid store: a save never overwrites. */
  lemma CreateIsFresh(s: Store)
    requires Valid(s)
    ensures Itoa(s.id + 1) !in s.notes
  {
    if Itoa(s.id + 1) in s.notes {
      var n: nat :| 1 <= n <= s.id && Itoa(n) == Itoa(s.id + 1);
      ItoaInjective(n, s.id + 1);
    }
  }

  /** A save keeps the store valid and adds exactly one entry. */
  lemma CreateKeepsValid(s: Store, title: string, description: string, now: Time)
    requires Valid(s)
    ensures Valid(Create(s, title, description, now).store)
    ensures |Create(s, title, description, now).store.notes| == |s.notes| + 1
  {
    var r := Create(s, title, description, now);
    CreateIsFresh(s);
    forall k | k in r.store.notes
      ensures Issued(k, r.store.id)
    {
      if k != r.result {
        var n: nat :| 1 <= n <= s.id && Itoa(n) == k;
        assert 1 <= n <= r.store.id;
      }
    }
    assert r.store.notes.Keys == s.notes.Keys + {r.result};
  }

  /** An update keeps the store valid and its size. */
  lemma UpdateKeepsValid(s: Store, k: string, title: string, description: string)
    requires Valid(s)
    ensures Valid(Update(s, k, title, description).store)
    ensures |Update(s, k, title, description).store.notes| == |s.notes|
  {
  }

  /** A delete keeps the store valid and shrinks it by one exactly when the key was there. */
  lemma DeleteKeepsValid(s: Store, k: string)
    requires Valid(s)
    ensures Valid(Delete(s, k).store)
    ensures |Delete(s, k).store.notes| == if k in s.notes then |s.notes| - 1 else |s.notes|
  {
  }

  /** Every stored key is a canonical decimal string, so a request path such as
      "01" or "+1" never finds a note. */
  lemma StoredKeysAreCanonical(s: Store, k: string)
    requires Valid(s) && k in s.notes
    ensures Canonical(k) && k != "0"
  {
  }

  /** A set of issued keys has at most as many members as the counter. */
  lemma {:induction false} IssuedKeysBound(keys: set<string>, id: nat)
    requires forall k :: k in keys ==> Issued(k, id)
    ensures |keys| <= id
    decreases id
  {
    if id > 0 {
      var rest := keys - {Itoa(id)};
      forall k | k in rest
        ensures Issued(k, id - 1)
      {
        var n: nat :| 1 <= n <= id && Itoa(n) == k;
        assert n != id;
      }
      IssuedKeysBound(rest, id - 1);
      assert keys <= rest + {Itoa(id)};
      assert |keys| <= |rest + {Itoa(id)}| <= |rest| + 1;
    }
  }

  /** The table never holds more notes than saves have happened. */
  lemma SizeBound(s: Store)
    requires Valid(s)
    ensures |s.notes| <= s.id
  {
    IssuedKeysBound(s.notes.Keys, s.id);
  }

  /** The handler requests that reach the store (routes of main.go:125-128). */
  datatype Request =
    | SaveNote(title: string, description: string, now: Time)
    | EditNote(key: string)
    | UpdateNote(key: string, title: string, description: string)
    | DeleteNote(key: string)

  /** One request: the new state and the keys it issued (one for a save, none otherwise). */
  function Handle(s: Store, req: Request): (r: Step<seq<string>>)
    ensures |r.result| == if req.SaveNote? then 1 else 0
    ensures r.store.id == s.id + |r.result|
    ensures forall i :: 0 <= i < |r.result| ==> r.result[i] == Itoa(s.id + i + 1)
  {
    match req
    case SaveNote(title, description, now) =>
      var c := Create(s, title, description, now); Step(c.store, [c.result])
    case EditNote(_) => Step(s, [])
    case UpdateNote(k, title, description) => Step(Update(s, k, title, description).store, [])
    case DeleteNote(k) => Step(Delete(s, k).store, [])
  }

  /** How many of the requests are saves. */
  function SaveCount(reqs: seq<Request>): nat
    decreases |reqs|
  {
    if reqs == [] then 0 else (if reqs[0].SaveNote? then 1 else 0) + SaveCount(reqs[1..])
  }

  /** Requests handled one after another, with every key issued on the way, in order. */
  function Run(s: Store, reqs: seq<Request>): (r: Step<seq<string>>)
    ensures |r.result| == SaveCount(reqs)
    ensures r.store.id == s.id + |r.result|
    ensures forall i :: 0 <= i < |r.result| ==> r.result[i] == Itoa(s.id + i + 1)
    decreases |reqs|
  {
    if reqs == [] then Step(s, [])
    else
      var first := Handle(s, reqs[0]);
      var rest := Run(first.store, reqs[1..]);
      Step(rest.store, first.result + rest.result)
  }

  /** Handling one request keeps the store valid. */
  lemma HandleKeepsValid(s: Store, req: Request)
    requires Valid(s)
    ensures Valid(Handle(s, req).store)
  {
  }

  /** Handling any requests keeps the store valid. */
  lemma {:induction false} RunKeepsValid(s: Store, reqs: seq<Request>)
    requires Valid(s)
    ensures Valid(Run(s, reqs).store)
    decreases |reqs|
  {
    if reqs != [] {
      HandleKeepsValid(s, reqs[0]);
      RunKeepsValid(Handle(s, reqs[0]).store, reqs[1..]);
    }
  }

  /** Keys are never reused: two saves along a run issue different keys, deletes notwithstanding. */
  lemma KeysDistinct(s: Store, reqs: seq<Request>, i: nat, j: nat)
    requires i < j < |Run(s, reqs).result|
    ensures Run(s, reqs).result[i] != Run(s, reqs).result[j]
  {
    var keys := Run(s, reqs).result;
    if keys[i] == keys[j] {
      ItoaInjective(s.id + i + 1, s.id + j + 1);
    }
  }

  /** No key issued along a run was already in the valid store the run started from. */
  lemma KeysFresh(s: Store, reqs: seq<Request>, i: nat)
    requires Valid(s) && i < |Run(s, reqs).result|
    ensures Run(s, reqs).result[i] !in s.notes
  {
    var k := Run(s, reqs).result[i];
    if k in s.notes {
      var n: nat :| 1 <= n <= s.id && Itoa(n) == k;
      ItoaInjective(n, s.id + i + 1);
    }
  }

  predicate AllSaves(reqs: seq<Request>) {
    forall i :: 0 <= i < |reqs| ==> reqs[i].SaveNote?
  }

  /** After N saves the table has grown by exactly N entries, under exactly the returned keys. */
  lemma {:induction false} SavesOnly(s: Store, reqs: seq<Request>)
    requires Valid(s) && AllSaves(reqs)
    ensures |Run(s, reqs).result| == |reqs|
    ensures forall k :: k in Run(s, reqs).store.notes <==> k in s.notes || k in Run(s, reqs).result
    ensures |Run(s, reqs).store.notes| == |s.notes| + |reqs|
    decreases |reqs|
  {
    if reqs != [] {
      var req := reqs[0];
      var c := Create(s, req.title, req.description, req.now);
      assert Handle(s, req) == Step(c.store, [c.result]);
      CreateKeepsValid(s, req.title, req.description, req.now);
      assert AllSaves(reqs[1..]) by {
        forall i | 0 <= i < |reqs[1..]| ensures reqs[1..][i].SaveNote? {
          assert reqs[1..][i] == reqs[i + 1];
        }
      }
      SavesOnly(c.store, reqs[1..]);
      var rest := Run(c.store, reqs[1..]);
      assert Run(s, reqs) == Step(rest.store, [c.result] + rest.result);
    }
  }
}
