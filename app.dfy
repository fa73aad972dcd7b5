/**
 * The roster rules of the Mergington High School activities API: the
 * listing of activities, signing a student up, removing a participant,
 * and seeding the collection from the fixed catalog.
 *
 * Each endpoint is one atomic step against the collection. Its outcome is
 * a `Response`, which stands for HTTP 200 with a message, 404 or 400 with a
 * detail. The pure functions `Listing`, `Signup` and `Removal` specify the
 * endpoints; the lemmas state the roster rules in terms of the listing.
 */
module App {

  import opened Roster
  import opened Store

  // ---------------------------------------------------------------------
  // Responses
  // ---------------------------------------------------------------------

  datatype Response = Ok(message: string) | NotFound(detail: string) | BadRequest(detail: string) {
    /** The HTTP status code the response is sent with: 200 for success, 404 and 400 for the two errors. */
    function StatusCode(): (code: int)
      ensures code == 200 <==> Ok?
      ensures code == 404 <==> NotFound?
      ensures code == 400 <==> BadRequest?
    {
      match this
      case Ok(_) => 200
      case NotFound(_) => 404
      case BadRequest(_) => 400
    }
  }

  const ActivityNotFound := "Atividade não encontrada"
  const AlreadyEnrolled := "Estudante já inscrito nesta atividade"
  const ParticipantNotFound := "Participante não encontrado nesta atividade"

  const SignedUpFor := " inscrito(a) em "
  const RemovedFrom := " removido(a) de "
  const Succeeded := " com sucesso"

  /** The signup confirmation: it names the email, then the activity. */
  function SignupMessage(email: Email, activityName: string): (m: string)
    ensures |email| + |SignedUpFor| <= |m|
    ensures email <= m && activityName <= m[|email| + |SignedUpFor|..]
  {
    email + SignedUpFor + activityName + Succeeded
  }

  /** The removal confirmation: it names the email, then the activity. */
  function RemovalMessage(email: Email, activityName: string): (m: string)
    ensures |email| + |RemovedFrom| <= |m|
    ensures email <= m && activityName <= m[|email| + |RemovedFrom|..]
  {
    email + RemovedFrom + activityName + Succeeded
  }

  /** What an endpoint call returns, together with the collection it leaves behind. */
  datatype Outcome = Outcome(response: Response, docs: seq<Document>)

  // ---------------------------------------------------------------------
  // Listing
  // ---------------------------------------------------------------------

  /** A document with its `name` and `_id` fields popped: nothing else is lost. */
  function Strip(d: Document): (a: Activity)
    ensures MakeDocument(d.id, d.name, a) == d
  {
    Activity(d.description, d.schedule, d.maxParticipants, d.participants)
  }

  /** Popping the `name` and `_id` that seeding and the store added gives back the catalog details. */
  lemma StripMakeDocument(id: nat, name: string, details: Activity)
    ensures Strip(MakeDocument(id, name, details)) == details
  {
  }

  /** No later document carries the name of document `i`. */
  ghost predicate IsLast(docs: seq<Document>, i: int)
    requires 0 <= i < |docs|
  {
    forall j :: i < j < |docs| ==> docs[j].name != docs[i].name
  }

  /**
   * The map `get_activities` builds from the documents in order: each
   * document, stripped, under its name, a later document replacing an
   * earlier one of the same name.
   */
  function Listing(docs: seq<Document>): (r: map<string, Activity>)
    ensures r.Keys == Names(docs)
  {
    if |docs| == 0 then map[]
    else
      var front, last := docs[..|docs| - 1], docs[|docs| - 1];
      assert Names(docs) == Names(front) + {last.name} by {
        assert forall i :: 0 <= i < |front| ==> front[i] == docs[i];
      }
      Listing(front)[last.name := Strip(last)]
  }

  /** The listing shows a document under its name unless a later document has the same name. */
  lemma {:induction false} ListingAt(docs: seq<Document>, i: int)
    requires 0 <= i < |docs| && IsLast(docs, i)
    ensures docs[i].name in Listing(docs) && Listing(docs)[docs[i].name] == Strip(docs[i])
  {
    var front := docs[..|docs| - 1];
    if i < |docs| - 1 {
      assert IsLast(front, i) by {
        assert forall j :: 0 <= j < |front| ==> front[j] == docs[j];
      }
      ListingAt(front, i);
    }
  }

  /** Every listed entry is some document of that name, stripped. */
  lemma {:induction false} ListingSource(docs: seq<Document>, n: string) returns (i: int)
    requires n in Listing(docs)
    ensures 0 <= i < |docs| && docs[i].name == n && Listing(docs)[n] == Strip(docs[i])
  {
    var front := docs[..|docs| - 1];
    if docs[|docs| - 1].name == n {
      i := |docs| - 1;
    } else {
      i := ListingSource(front, n);
      assert front[i] == docs[i];
    }
  }

  /** Under unique names, the listing shows every document under its own name. */
  lemma ListingOfUnique(docs: seq<Document>, i: int)
    requires UniqueNames(docs)
    requires 0 <= i < |docs|
    ensures docs[i].name in Listing(docs) && Listing(docs)[docs[i].name] == Strip(docs[i])
  {
    ListingAt(docs, i);
  }

  /** Under unique names, replacing one document by another of the same name replaces its entry in the listing and nothing else. */
  lemma {:induction false} ListingUpdate(docs: seq<Document>, i: int, d: Document)
    requires UniqueNames(docs)
    requires 0 <= i < |docs| && d.name == docs[i].name
    ensures UniqueNames(docs[i := d])
    ensures Listing(docs[i := d]) == Listing(docs)[d.name := Strip(d)]
  {
    UniqueNamesRenameFree(docs, i, d);
    var n := |docs| - 1;
    if i < n {
      var front := docs[..n];
      UniqueNamesPrefix(docs, n);
      ListingUpdate(front, i, d);
      assert docs[i := d][..n] == front[i := d];
      MapUpdatesCommute(Listing(front), d.name, Strip(d), docs[n].name, Strip(docs[n]));
    } else {
      assert docs[i := d][..n] == docs[..n];
    }
  }

  lemma UniqueNamesRenameFree(docs: seq<Document>, i: int, d: Document)
    requires UniqueNames(docs)
    requires 0 <= i < |docs| && d.name == docs[i].name
    ensures UniqueNames(docs[i := d])
  {
    var after := docs[i := d];
    forall p, q | 0 <= p < q < |after| ensures after[p].name != after[q].name {
      assert after[p].name == docs[p].name && after[q].name == docs[q].name;
    }
  }

  lemma UniqueNamesPrefix(docs: seq<Document>, n: int)
    requires UniqueNames(docs)
    requires 0 <= n <= |docs|
    ensures UniqueNames(docs[..n])
  {
    var front := docs[..n];
    forall p, q | 0 <= p < q < |front| ensures front[p].name != front[q].name {
      assert front[p] == docs[p] && front[q] == docs[q];
    }
  }

  /** Updates of two different keys commute. */
  lemma MapUpdatesCommute<K, V>(m: map<K, V>, k1: K, v1: V, k2: K, v2: V)
    requires k1 != k2
    ensures m[k1 := v1][k2 := v2] == m[k2 := v2][k1 := v1]
  {
  }

  /**
   * `get_activities`: reads every document and builds the name-keyed map
   * of their stripped contents.
   */
  method GetActivities(c: Collection) returns (result: map<string, Activity>)
    ensures result == Listing(c.docs)
  {
    var activitiesList := c.docs;
    result := map[];
    var k := 0;
    while k < |activitiesList|
      invariant 0 <= k <= |activitiesList|
      invariant result == Listing(activitiesList[..k])
    {
      var activity := activitiesList[k];
      assert activitiesList[..k + 1][..k] == activitiesList[..k];
      result := result[activity.name := Strip(activity)];
      k := k + 1;
    }
    assert activitiesList[..k] == activitiesList;
  }

  /** Every roster the listing shows is free of duplicates when every stored one is. */
  lemma ListingRostersDistinct(docs: seq<Document>)
    requires RostersDistinct(docs)
    ensures forall n :: n in Listing(docs) ==> NoDuplicates(Listing(docs)[n].participants)
  {
    forall n | n in Listing(docs)
      ensures NoDuplicates(Listing(docs)[n].participants)
    {
      var i := ListingSource(docs, n);
    }
  }

  // ---------------------------------------------------------------------
  // Signup
  // ---------------------------------------------------------------------

  /** The effect of `signup_for_activity(activityName, email)` on the collection `docs`. */
  function Signup(docs: seq<Document>, activityName: string, email: Email): (o: Outcome)
    ensures o.response.Ok? || o.docs == docs
    ensures OnlyRostersDiffer(docs, o.docs)
  {
    match FirstIndex(docs, activityName)
    case None => Outcome(NotFound(ActivityNotFound), docs)
    case Some(i) =>
      if email in docs[i].participants then Outcome(BadRequest(AlreadyEnrolled), docs)
      else Outcome(Ok(SignupMessage(email, activityName)), PushParticipant(docs, activityName, email))
  }

  /** Signing up for an activity that is not listed answers 404 and changes nothing. */
  lemma SignupUnknownActivity(docs: seq<Document>, activityName: string, email: Email)
    requires activityName !in Listing(docs)
    ensures Signup(docs, activityName, email) == Outcome(NotFound(ActivityNotFound), docs)
  {
  }

  /** Signing up an email already on the roster answers 400 and changes nothing. */
  lemma SignupAlreadyEnrolled(docs: seq<Document>, activityName: string, email: Email)
    requires UniqueNames(docs)
    requires activityName in Listing(docs)
    requires email in Listing(docs)[activityName].participants
    ensures Signup(docs, activityName, email) == Outcome(BadRequest(AlreadyEnrolled), docs)
  {
    ListingOfUnique(docs, FirstIndex(docs, activityName).value);
  }

  /**
   * Signing up a new email appends it to that activity's roster, whatever
   * its capacity, and changes nothing else in the listing.
   */
  lemma SignupEnrolls(docs: seq<Document>, activityName: string, email: Email)
    requires UniqueNames(docs)
    requires activityName in Listing(docs)
    requires email !in Listing(docs)[activityName].participants
    ensures var o, a := Signup(docs, activityName, email), Listing(docs)[activityName];
      && o.response == Ok(SignupMessage(email, activityName))
      && UniqueNames(o.docs)
      && Listing(o.docs) == Listing(docs)[activityName := a.(participants := a.participants + [email])]
  {
    var i := FirstIndex(docs, activityName).value;
    ListingOfUnique(docs, i);
    ListingUpdate(docs, i, docs[i].(participants := docs[i].participants + [email]));
  }

  /** Signup keeps every roster free of duplicates. */
  lemma SignupKeepsRostersDistinct(docs: seq<Document>, activityName: string, email: Email)
    requires RostersDistinct(docs)
    ensures RostersDistinct(Signup(docs, activityName, email).docs)
  {
    if FirstIndex(docs, activityName).Some? && email !in docs[FirstIndex(docs, activityName).value].participants {
      PushKeepsRostersDistinct(docs, activityName, email);
    }
  }

  /** `POST /activities/{activityName}/signup?email=...`. */
  method SignupForActivity(c: Collection, activityName: string, email: Email) returns (response: Response)
    modifies c
    ensures Outcome(response, c.docs) == Signup(old(c.docs), activityName, email)
    ensures c.nextId == old(c.nextId) && (old(c.Valid()) ==> c.Valid())
    ensures old(RostersDistinct(c.docs)) ==> RostersDistinct(c.docs)
  {
    var activity := c.FindOne(activityName);
    if activity.None? {
      return NotFound(ActivityNotFound);
    }
    if email in activity.value.participants {
      return BadRequest(AlreadyEnrolled);
    }
    c.UpdateOnePush(activityName, email);
    response := Ok(SignupMessage(email, activityName));
    if old(RostersDistinct(c.docs)) {
      SignupKeepsRostersDistinct(old(c.docs), activityName, email);
    }
  }

  // ---------------------------------------------------------------------
  // Removal
  // ---------------------------------------------------------------------

  /** The effect of `remove_participant(activityName, email)` on the collection `docs`. */
  function Removal(docs: seq<Document>, activityName: string, email: Email): (o: Outcome)
    ensures o.response.Ok? || o.docs == docs
    ensures OnlyRostersDiffer(docs, o.docs)
  {
    match FirstIndex(docs, activityName)
    case None => Outcome(NotFound(ActivityNotFound), docs)
    case Some(i) =>
      if email !in docs[i].participants then Outcome(NotFound(ParticipantNotFound), docs)
      else Outcome(Ok(RemovalMessage(email, activityName)), PullParticipant(docs, activityName, email))
  }

  /** Removing from an activity that is not listed answers 404 and changes nothing. */
  lemma RemovalUnknownActivity(docs: seq<Document>, activityName: string, email: Email)
    requires activityName !in Listing(docs)
    ensures Removal(docs, activityName, email) == Outcome(NotFound(ActivityNotFound), docs)
  {
  }

  /** Removing an email that is not on the roster answers 404 and changes nothing. */
  lemma RemovalNotEnrolled(docs: seq<Document>, activityName: string, email: Email)
    requires UniqueNames(docs)
    requires activityName in Listing(docs)
    requires email !in Listing(docs)[activityName].participants
    ensures Removal(docs, activityName, email) == Outcome(NotFound(ParticipantNotFound), docs)
  {
    ListingOfUnique(docs, FirstIndex(docs, activityName).value);
  }

  /**
   * Removing an enrolled email deletes every occurrence of it from that
   * activity's roster, keeps the other emails in order, and changes
   * nothing else in the listing.
   */
  lemma RemovalWithdraws(docs: seq<Document>, activityName: string, email: Email)
    requires UniqueNames(docs)
    requires activityName in Listing(docs)
    requires email in Listing(docs)[activityName].participants
    ensures var o, a := Removal(docs, activityName, email), Listing(docs)[activityName];
      && o.response == Ok(RemovalMessage(email, activityName))
      && UniqueNames(o.docs)
      && Listing(o.docs) == Listing(docs)[activityName := a.(participants := Pull(a.participants, email))]
  {
    var i := FirstIndex(docs, activityName).value;
    ListingOfUnique(docs, i);
    ListingUpdate(docs, i, docs[i].(participants := Pull(docs[i].participants, email)));
  }

  /** On a roster without duplicates, a successful removal shortens it by exactly one. */
  lemma RemovalShortensByOne(docs: seq<Document>, activityName: string, email: Email)
    requires UniqueNames(docs) && RostersDistinct(docs)
    requires activityName in Listing(docs)
    requires email in Listing(docs)[activityName].participants
    ensures var o, a := Removal(docs, activityName, email), Listing(docs)[activityName];
      |Listing(o.docs)[activityName].participants| == |a.participants| - 1
  {
    var a := Listing(docs)[activityName];
    RemovalWithdraws(docs, activityName, email);
    ListingRostersDistinct(docs);
    var k :| 0 <= k < |a.participants| && a.participants[k] == email;
    PullAt(a.participants, k);
  }

  /** Removal keeps every roster free of duplicates. */
  lemma RemovalKeepsRostersDistinct(docs: seq<Document>, activityName: string, email: Email)
    requires RostersDistinct(docs)
    ensures RostersDistinct(Removal(docs, activityName, email).docs)
  {
    PullKeepsRostersDistinct(docs, activityName, email);
  }

  /**
   * Round trip: signing up an email the matched activity lacks and then
   * removing it succeeds twice and restores the collection exactly.
   */
  lemma SignupThenRemoval(docs: seq<Document>, activityName: string, email: Email)
    requires FirstIndex(docs, activityName).Some?
    requires email !in docs[FirstIndex(docs, activityName).value].participants
    ensures var o := Signup(docs, activityName, email);
      && o.response == Ok(SignupMessage(email, activityName))
      && Removal(o.docs, activityName, email) == Outcome(Ok(RemovalMessage(email, activityName)), docs)
  {
    var i := FirstIndex(docs, activityName).value;
    var after := Signup(docs, activityName, email).docs;
    FirstIndexIgnoresRosters(docs, after, activityName);
    PullUndoesPush(docs[i].participants, email);
    assert after[i := after[i].(participants := Pull(after[i].participants, email))] == docs;
  }

  /** `POST /activities/{activityName}/remove?email=...`. */
  method RemoveParticipant(c: Collection, activityName: string, email: Email) returns (response: Response)
    modifies c
    ensures Outcome(response, c.docs) == Removal(old(c.docs), activityName, email)
    ensures c.nextId == old(c.nextId) && (old(c.Valid()) ==> c.Valid())
    ensures old(RostersDistinct(c.docs)) ==> RostersDistinct(c.docs)
  {
    var activity := c.FindOne(activityName);
    if activity.None? {
      return NotFound(ActivityNotFound);
    }
    if email !in activity.value.participants {
      return NotFound(ParticipantNotFound);
    }
    c.UpdateOnePull(activityName, email);
    response := Ok(RemovalMessage(email, activityName));
    if old(RostersDistinct(c.docs)) {
      RemovalKeepsRostersDistinct(old(c.docs), activityName, email);
    }
  }

  // ---------------------------------------------------------------------
  // Seeding
  // ---------------------------------------------------------------------

  /** `initial_activities`: the catalog, in its declaration order. */
  const InitialActivities: seq<(string, Activity)> := [
    ("Clube de Xadrez", Activity(
      "Aprenda estratégias e participe de torneios de xadrez",
      "Sextas, 15h30 - 17h", 12,
      ["michael@mergington.edu", "daniel@mergington.edu"])),
    ("Aula de Programação", Activity(
      "Aprenda fundamentos de programação e desenvolva projetos de software",
      "Terças e quintas, 15h30 - 16h30", 20,
      ["emma@mergington.edu", "sophia@mergington.edu"])),
    ("Educação Física", Activity(
      "Educação física e atividades esportivas",
      "Segundas, quartas e sextas, 14h - 15h", 30,
      ["john@mergington.edu", "olivia@mergington.edu"])),
    ("Futebol", Activity(
      "Participe do time de futebol da escola e jogue campeonatos",
      "Terças e quintas, 16h - 17h30", 22,
      ["lucas@mergington.edu", "marcos@mergington.edu"])),
    ("Vôlei", Activity(
      "Aulas e treinos de vôlei para todos os níveis",
      "Quartas e sextas, 15h - 16h30", 18,
      ["ana@mergington.edu", "carla@mergington.edu"])),
    ("Teatro", Activity(
      "Oficina de teatro com apresentações semestrais",
      "Segundas e quartas, 16h - 17h30", 15,
      ["bruno@mergington.edu", "lara@mergington.edu"])),
    ("Clube de Música", Activity(
      "Aprenda instrumentos e participe da banda escolar",
      "Sextas, 14h - 15h30", 12,
      ["rafael@mergington.edu", "juliana@mergington.edu"])),
    ("Olimpíada de Matemática", Activity(
      "Prepare-se para olimpíadas de matemática com aulas e desafios",
      "Terças, 17h - 18h", 25,
      ["paulo@mergington.edu", "camila@mergington.edu"])),
    ("Clube de Leitura", Activity(
      "Leitura e discussão de livros clássicos e contemporâneos",
      "Quintas, 16h - 17h", 20,
      ["aline@mergington.edu", "fernando@mergington.edu"]))
  ]

  /** The catalog names its activities once each, and no catalog roster repeats an email. */
  lemma CatalogWellFormed()
    ensures |InitialActivities| == 9
    ensures forall i, j :: 0 <= i < j < |InitialActivities| ==> InitialActivities[i].0 != InitialActivities[j].0
    ensures forall i :: 0 <= i < |InitialActivities| ==> NoDuplicates(InitialActivities[i].1.participants)
  {
  }

  /** `docs` is what seeding inserts: one document per catalog entry, in order, with consecutive new ids from `firstId`. */
  ghost predicate Seeded(docs: seq<Document>, firstId: nat) {
    |docs| == |InitialActivities|
    && forall k :: 0 <= k < |docs| ==> docs[k] == MakeDocument(firstId + k, InitialActivities[k].0, InitialActivities[k].1)
  }

  /** Distinct names give as many listed activities as documents. */
  lemma {:induction false} NamesCount(docs: seq<Document>)
    requires UniqueNames(docs)
    ensures |Names(docs)| == |docs|
  {
    if |docs| > 0 {
      var front := docs[..|docs| - 1];
      assert Names(docs) == Names(front) + {docs[|docs| - 1].name} by {
        assert forall i :: 0 <= i < |front| ==> front[i] == docs[i];
      }
      assert docs[|docs| - 1].name !in Names(front);
      NamesCount(front);
    }
  }

  /** Seeding establishes both store invariants: unique names and duplicate-free rosters. */
  lemma SeededInvariants(docs: seq<Document>, firstId: nat)
    requires Seeded(docs, firstId)
    ensures UniqueNames(docs) && RostersDistinct(docs)
  {
    CatalogWellFormed();
    assert forall k :: 0 <= k < |docs| ==> docs[k].name == InitialActivities[k].0;
    assert forall k :: 0 <= k < |docs| ==> docs[k].participants == InitialActivities[k].1.participants;
  }

  /**
   * After seeding, the listing holds exactly the nine catalog activities,
   * each under its catalog name with its catalog details.
   */
  lemma SeededListing(docs: seq<Document>, firstId: nat)
    requires Seeded(docs, firstId)
    ensures |Listing(docs)| == 9
    ensures Listing(docs).Keys == set k | 0 <= k < |InitialActivities| :: InitialActivities[k].0
    ensures forall k :: 0 <= k < |InitialActivities| ==> Listing(docs)[InitialActivities[k].0] == InitialActivities[k].1
  {
    SeededInvariants(docs, firstId);
    assert Names(docs) == set k | 0 <= k < |InitialActivities| :: InitialActivities[k].0 by {
      assert forall k :: 0 <= k < |docs| ==> docs[k].name == InitialActivities[k].0;
    }
    assert |Listing(docs)| == 9 by {
      NamesCount(docs);
    }
    forall k | 0 <= k < |InitialActivities|
      ensures Listing(docs)[InitialActivities[k].0] == InitialActivities[k].1
    {
      ListingOfUnique(docs, k);
    }
  }

  /** The seeded chess club lists its two catalog members. */
  lemma ChessClubSeeded(docs: seq<Document>, firstId: nat)
    requires Seeded(docs, firstId)
    ensures UniqueNames(docs)
    ensures "Clube de Xadrez" in Listing(docs)
    ensures Listing(docs)["Clube de Xadrez"].participants == ["michael@mergington.edu", "daniel@mergington.edu"]
  {
    SeededInvariants(docs, firstId);
    ListingOfUnique(docs, 0);
  }

  /**
   * With the chess club holding its two seeded members, a new student
   * signs up and is appended after them; the same signup again answers 400
   * and leaves the three entries as they are.
   */
  lemma ChessClubSignupTwice(docs: seq<Document>)
    requires UniqueNames(docs)
    requires "Clube de Xadrez" in Listing(docs)
    requires Listing(docs)["Clube de Xadrez"].participants == ["michael@mergington.edu", "daniel@mergington.edu"]
    ensures var chess, email := "Clube de Xadrez", "new@mergington.edu";
      var first := Signup(docs, chess, email);
      && first.response.StatusCode() == 200
      && Listing(first.docs)[chess].participants == ["michael@mergington.edu", "daniel@mergington.edu", email]
      && Signup(first.docs, chess, email) == Outcome(BadRequest(AlreadyEnrolled), first.docs)
  {
    var chess, email := "Clube de Xadrez", "new@mergington.edu";
    var seeded := ["michael@mergington.edu", "daniel@mergington.edu"];
    assert email !in seeded;
    SignupEnrolls(docs, chess, email);
    var first := Signup(docs, chess, email);
    assert Listing(first.docs)[chess].participants == seeded + [email];
    assert seeded + [email] == ["michael@mergington.edu", "daniel@mergington.edu", email];
    SignupAlreadyEnrolled(first.docs, chess, email);
  }

  /** `initialize_db`: empties the collection, then inserts one document per catalog entry. */
  method InitializeDb(c: Collection)
    modifies c
    ensures Seeded(c.docs, old(c.nextId))
    ensures c.nextId == old(c.nextId) + |InitialActivities|
    ensures c.Valid()
    ensures UniqueNames(c.docs) && RostersDistinct(c.docs)
  {
    c.DeleteMany();
    for k := 0 to |InitialActivities|
      invariant |c.docs| == k && c.nextId == old(c.nextId) + k && c.Valid()
      invariant forall j :: 0 <= j < k ==> c.docs[j] == MakeDocument(old(c.nextId) + j, InitialActivities[j].0, InitialActivities[j].1)
    {
      var (name, details) := InitialActivities[k];
      var _ := c.InsertOne(name, details);
    }
    SeededInvariants(c.docs, old(c.nextId));
  }
}
