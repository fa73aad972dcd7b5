/**
 * The activities collection of the document store, held in memory.
 *
 * The collection is the sequence of its documents in natural (insertion)
 * order. A query on `name` matches the FIRST document with that name, as
 * `find_one` and `update_one` do. Object ids are drawn from a counter,
 * which stands in for the store's id generator. The collection's invariant
 * `Valid` keeps the counter above every stored id, so every id it hands out
 * is new, as the store's unique `_id` index demands.
 */
module Store {

  import opened Roster

  datatype Option<T> = None | Some(value: T)

  /** The details of an activity: what a client sees for it. */
  datatype Activity = Activity(
    description: string,
    schedule: string,
    maxParticipants: int,
    participants: seq<Email>)

  /** A stored document: the activity's details plus its `name` and `_id` fields. */
  datatype Document = Document(
    id: nat,
    name: string,
    description: string,
    schedule: string,
    maxParticipants: int,
    participants: seq<Email>)

  /** The document for an activity: its details with `name` added as a field and the `_id` the store assigns. */
  function MakeDocument(id: nat, name: string, details: Activity): (d: Document)
    ensures d.id == id && d.name == name
  {
    Document(id, name, details.description, details.schedule, details.maxParticipants, details.participants)
  }

  /** The names of the stored activities. */
  function Names(docs: seq<Document>): set<string> {
    set i | 0 <= i < |docs| :: docs[i].name
  }

  /** No two documents carry the same name: `name` works as a primary key. */
  ghost predicate UniqueNames(docs: seq<Document>) {
    forall i, j :: 0 <= i < j < |docs| ==> docs[i].name != docs[j].name
  }

  /** No two documents carry the same `_id`. */
  ghost predicate UniqueIds(docs: seq<Document>) {
    forall i, j :: 0 <= i < j < |docs| ==> docs[i].id != docs[j].id
  }

  /** The roster invariant, for every stored activity. */
  ghost predicate RostersDistinct(docs: seq<Document>) {
    forall i :: 0 <= i < |docs| ==> NoDuplicates(docs[i].participants)
  }

  /** `b` is `a` with at most the rosters changed: same documents, same order, same other fields. */
  ghost predicate OnlyRostersDiffer(a: seq<Document>, b: seq<Document>) {
    |a| == |b| && forall i :: 0 <= i < |a| ==> b[i] == a[i].(participants := b[i].participants)
  }

  /** The position of the document a query `{"name": name}` matches, if any: the first one with that name. */
  function FirstIndex(docs: seq<Document>, name: string): (r: Option<nat>)
    ensures r.None? <==> name !in Names(docs)
    ensures r.Some? ==> r.value < |docs| && docs[r.value].name == name
    ensures r.Some? ==> forall j :: 0 <= j < r.value ==> docs[j].name != name
  {
    if |docs| == 0 then None
    else if docs[0].name == name then Some(0)
    else match FirstIndex(docs[1..], name)
      case None => None
      case Some(k) => Some(k + 1)
  }

  /** `update_one({"name": name}, {"$push": {"participants": email}})`. */
  function PushParticipant(docs: seq<Document>, name: string, email: Email): (r: seq<Document>)
    ensures OnlyRostersDiffer(docs, r)
  {
    match FirstIndex(docs, name)
    case None => docs
    case Some(i) => docs[i := docs[i].(participants := docs[i].participants + [email])]
  }

  /** `update_one({"name": name}, {"$pull": {"participants": email}})`. */
  function PullParticipant(docs: seq<Document>, name: string, email: Email): (r: seq<Document>)
    ensures OnlyRostersDiffer(docs, r)
  {
    match FirstIndex(docs, name)
    case None => docs
    case Some(i) => docs[i := docs[i].(participants := Pull(docs[i].participants, email))]
  }

  /** A query on `name` matches the same position in two collections that differ only in rosters. */
  lemma {:induction false} FirstIndexIgnoresRosters(a: seq<Document>, b: seq<Document>, name: string)
    requires OnlyRostersDiffer(a, b)
    ensures FirstIndex(a, name) == FirstIndex(b, name)
  {
    if |a| > 0 {
      assert b[0].name == a[0].name;
      assert OnlyRostersDiffer(a[1..], b[1..]) by {
        forall i | 0 <= i < |a[1..]| ensures b[1..][i] == a[1..][i].(participants := b[1..][i].participants) {
          assert b[1..][i] == b[i + 1] && a[1..][i] == a[i + 1];
        }
      }
      FirstIndexIgnoresRosters(a[1..], b[1..], name);
    }
  }

  /** Changing rosters keeps the names, and so keeps them unique. */
  lemma OnlyRostersDifferKeepsNames(a: seq<Document>, b: seq<Document>)
    requires OnlyRostersDiffer(a, b)
    ensures Names(a) == Names(b)
    ensures UniqueNames(a) <==> UniqueNames(b)
  {
    assert forall i :: 0 <= i < |a| ==> a[i].name == b[i].name;
  }

  /** `$push` of an email the matched roster lacks keeps every roster free of duplicates. */
  lemma PushKeepsRostersDistinct(docs: seq<Document>, name: string, email: Email)
    requires RostersDistinct(docs)
    requires FirstIndex(docs, name).Some? ==> email !in docs[FirstIndex(docs, name).value].participants
    ensures RostersDistinct(PushParticipant(docs, name, email))
  {
    match FirstIndex(docs, name)
    case None =>
    case Some(i) =>
      PushKeepsDistinct(docs[i].participants, email);
  }

  /** `$pull` keeps every roster free of duplicates. */
  lemma PullKeepsRostersDistinct(docs: seq<Document>, name: string, email: Email)
    requires RostersDistinct(docs)
    ensures RostersDistinct(PullParticipant(docs, name, email))
  {
    match FirstIndex(docs, name)
    case None =>
    case Some(i) =>
      PullKeepsDistinct(docs[i].participants, email);
  }

  /** The in-memory activities collection. */
  class Collection {
    /** The documents, in natural order. */
    var docs: seq<Document>
    /** The next object id the store hands out. */
    var nextId: nat

    /** The collection's invariant: ids are unique and all below the next id to hand out. */
    ghost predicate Valid()
      reads this
    {
      UniqueIds(docs) && forall i :: 0 <= i < |docs| ==> docs[i].id < nextId
    }

    /**
     * A collection holding whatever documents the store already had. Their
     * ids are unique, and the id generator resumes above all of them.
     */
    constructor (existing: seq<Document>, start: nat)
      requires UniqueIds(existing)
      requires forall i :: 0 <= i < |existing| ==> existing[i].id < start
      ensures Valid()
      ensures docs == existing && nextId == start
    {
      docs := existing;
      nextId := start;
    }

    /** `find_one({"name": name})`: the first document with that name, or nothing. */
    method FindOne(name: string) returns (r: Option<Document>)
      ensures r.None? <==> name !in Names(docs)
      ensures r.Some? ==> r.value.name == name && r.value == docs[FirstIndex(docs, name).value]
    {
      var k := FirstIndex(docs, name);
      if k.None? {
        r := None;
      } else {
        r := Some(docs[k.value]);
      }
    }

    /** `delete_many({})`: empties the collection. */
    method DeleteMany()
      modifies this`docs
      ensures docs == []
      ensures Valid()
    {
      docs := [];
    }

    /** `insert_one(doc)`: appends the document, giving it a new `_id`, which it returns. */
    method InsertOne(name: string, details: Activity) returns (id: nat)
      requires Valid()
      modifies this
      ensures Valid()
      ensures forall i :: 0 <= i < |old(docs)| ==> old(docs)[i].id != id
      ensures id == old(nextId) && nextId == old(nextId) + 1
      ensures docs == old(docs) + [MakeDocument(id, name, details)]
    {
      id := nextId;
      docs := docs + [MakeDocument(id, name, details)];
      nextId := nextId + 1;
    }

    /** `update_one` with `$push`: appends `email` to the roster of the first document named `name`. */
    method UpdateOnePush(name: string, email: Email)
      modifies this`docs
      ensures docs == PushParticipant(old(docs), name, email)
      ensures old(Valid()) ==> Valid()
    {
      var k := FirstIndex(docs, name);
      if k.Some? {
        var i := k.value;
        docs := docs[i := docs[i].(participants := docs[i].participants + [email])];
      }
    }

    /** `update_one` with `$pull`: deletes `email` from the roster of the first document named `name`. */
    method UpdateOnePull(name: string, email: Email)
      modifies this`docs
      ensures docs == PullParticipant(old(docs), name, email)
      ensures old(Valid()) ==> Valid()
    {
      var k := FirstIndex(docs, name);
      if k.Some? {
        var i := k.value;
        docs := docs[i := docs[i].(participants := Pull(docs[i].participants, email))];
      }
    }
  }
}
