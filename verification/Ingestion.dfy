/** The code around the tables: the person entity, the repositories over one database
    session, the use case that handles a detection, the callback that commits or rolls
    back, and the retention job. Each is proved against the functions of IdentityTables. */
module Ingestion {
  import DetectionConsumer
  import opened IdentityTables
  import opened Wrappers
  import Retention

  /** A detection message. `embeddingLength` is 0 when there is no embedding; a message
      without the expected fields is malformed. */
  datatype Detection =
    | Malformed
    | FireOrSmoke(camera: Id, at: Time)
    | PersonSeen(camera: Id, at: Time, embeddingLength: nat)
    | OtherObject(camera: Id)

  /** How a commit ends: it takes effect, or raises, or takes effect and raises all the
      same when its acknowledgement is lost. */
  datatype CommitReply = Commits | CommitFails | CommitsButRaises

  /** What the outside world answers during one attempt: the vector store's match (any id
      at all, or none), the random ids drawn, and whether its search, its indexing and the
      commit go through. */
  datatype World = World(
    found: Option<Id>, newId: Id, rowId: Id, searchWorks: bool, indexWorks: bool, commit: CommitReply)

  class PersonEntity {
    const id: Id
    var firstSeen: Time
    var lastSeen: Time
    var total: nat

    function Snapshot(): Person reads this { Person(firstSeen, lastSeen, total) }

    constructor (id: Id, firstSeen: Time, lastSeen: Time, total: nat)
      ensures this.id == id && Snapshot() == Person(firstSeen, lastSeen, total)
    {
      this.id, this.firstSeen, this.lastSeen, this.total := id, firstSeen, lastSeen, total;
    }

    method UpdateAppearance(at: Time)
      modifies this
      ensures Snapshot() == Appear(old(Snapshot()), at)
      ensures firstSeen <= at <= lastSeen
    {
      if at < firstSeen {
        firstSeen := at;
      }
      if at > lastSeen {
        lastSeen := at;
      }
      total := total + 1;
    }
  }

  /** A database session: what is committed, and the view of the open transaction. */
  class Session {
    var committed: Tables
    var pending: Tables

    constructor (tables: Tables)
      ensures committed == pending == tables
    {
      committed, pending := tables, tables;
    }

    /** The foreign key from rows to cameras is checked here. */
    method Commit(reply: CommitReply) returns (raised: bool)
      modifies this`committed
      ensures var fits := forall r :: r in pending.rows ==> pending.rows[r].camera in pending.cameras;
        && committed == (if fits && !reply.CommitFails? then pending else old(committed))
        && (raised <==> !fits || !reply.Commits?)
    {
      var fits := forall r :: r in pending.rows ==> pending.rows[r].camera in pending.cameras;
      if fits && !reply.CommitFails? {
        committed := pending;
      }
      raised := !fits || !reply.Commits?;
    }

    method Rollback()
      modifies this`pending
      ensures pending == committed
    {
      pending := committed;
    }
  }

  class PersonRepository {
    const session: Session

    constructor (session: Session)
      ensures this.session == session
    {
      this.session := session;
    }

    /** What a read of this id finds in the open transaction. */
    function Stored(id: Id): Option<Person> reads session {
      if id in session.pending.persons then Some(session.pending.persons[id]) else None
    }

    method GetById(id: Id) returns (person: PersonEntity?)
      ensures person == null <==> Stored(id).None?
      ensures person != null ==> fresh(person) && person.id == id && Stored(id) == Some(person.Snapshot())
    {
      if id !in session.pending.persons {
        return null;
      }
      var model := session.pending.persons[id];
      person := new PersonEntity(id, model.firstSeen, model.lastSeen, model.total);
    }

    /** What is read back afterwards: this person as it is now, everybody else as before. */
    method UpsertPerson(person: PersonEntity)
      modifies session`pending
      ensures Stored(person.id) == Some(person.Snapshot())
      ensures forall id :: id != person.id ==> Stored(id) == old(Stored(id))
      ensures session.pending.persons == old(session.pending.persons)[person.id := person.Snapshot()]
      ensures session.pending.rows == old(session.pending.rows)
      ensures session.pending.cameras == old(session.pending.cameras)
    {
      session.pending := session.pending.(
        persons := session.pending.persons[person.id := person.Snapshot()]);
    }
  }

  class TrackingRepository {
    const session: Session

    constructor (session: Session)
      ensures this.session == session
    {
      this.session := session;
    }

    /** One more row of that person, at that time, and no other row changed. */
    method SaveEvent(rowId: Id, personId: Id, camera: Id, at: Time)
      requires rowId !in session.pending.rows
      modifies session`pending
      ensures forall p ::
        RowsOf(session.pending, p) == old(RowsOf(session.pending, p)) + if p == personId then {rowId} else {}
      ensures HasRowAt(session.pending, personId, at)
      ensures session.pending.rows.Keys == old(session.pending.rows.Keys) + {rowId}
      ensures session.pending.rows[rowId] == Row(Some(personId), camera, at)
      ensures forall r :: r in old(session.pending.rows) ==> session.pending.rows[r] == old(session.pending.rows[r])
      ensures session.pending.persons == old(session.pending.persons)
      ensures session.pending.cameras == old(session.pending.cameras)
    {
      session.pending := session.pending.(
        rows := session.pending.rows[rowId := Row(Some(personId), camera, at)]);
      assert session.pending.rows[rowId].timestamp == at;
    }
  }

  /** The committed effect of one detection. */
  function Handled(t: Tables, d: Detection, w: World): Tables {
    if d.PersonSeen?
    then Ingested(t, Resolve(d.embeddingLength, w.found, w.newId), d.camera, d.at, w.rowId)
    else t
  }

  /** The vector store raises on the search, or on indexing a new identity. */
  predicate StoreRaises(embeddingLength: nat, w: World) {
    embeddingLength == EMBEDDING_SIZE && (!w.searchWorks || (w.found.None? && !w.indexWorks))
  }

  predicate Raises(d: Detection, w: World) {
    d.Malformed? || (d.PersonSeen? && StoreRaises(d.embeddingLength, w))
  }

  class ProcessTrackingEventUseCase {
    const session: Session
    const persons: PersonRepository
    const rows: TrackingRepository
    /** Cameras of the alerts handed to the producer, in order. */
    var alerts: seq<Id>

    ghost predicate Valid() { persons.session == session && rows.session == session }

    constructor (session: Session)
      ensures Valid() && this.session == session && alerts == []
    {
      this.session := session;
      var p := new PersonRepository(session);
      var r := new TrackingRepository(session);
      persons, rows, alerts := p, r, [];
    }

    method HandlePersonDetection(camera: Id, at: Time, embeddingLength: nat, w: World) returns (raised: bool)
      requires Valid() && w.newId !in session.pending.persons && w.rowId !in session.pending.rows
      modifies session`pending
      ensures !raised ==>
        session.pending ==
        Ingested(old(session.pending), Resolve(embeddingLength, w.found, w.newId), camera, at, w.rowId)
      ensures raised <==> embeddingLength == 512 && (!w.searchWorks || (w.found.None? && !w.indexWorks))
    {
      var personId: Option<Id> := None;
      if embeddingLength == EMBEDDING_SIZE {
        if !w.searchWorks {
          return true;
        }
        if w.found.Some? {
          personId := w.found;
        }
      }
      var id: Id;
      if personId.Some? {
        id := personId.value;
        var person := persons.GetById(id);
        if person != null {
          person.UpdateAppearance(at);
          persons.UpsertPerson(person);
        } else {
          person := new PersonEntity(id, at, at, 1);
          persons.UpsertPerson(person);
        }
      } else {
        id := w.newId;
        var person := new PersonEntity(id, at, at, 1);
        persons.UpsertPerson(person);
        if embeddingLength == EMBEDDING_SIZE && !w.indexWorks {
          return true;
        }
      }
      ghost var filed := Ingested(old(session.pending), id, camera, at, w.rowId);
      rows.SaveEvent(w.rowId, id, camera, at);
      assert session.pending.rows == filed.rows;
      raised := false;
    }

    method Execute(d: Detection, w: World) returns (raised: bool)
      requires Valid() && w.newId !in session.pending.persons && w.rowId !in session.pending.rows
      modifies session`pending, this`alerts
      ensures !raised ==> session.pending == Handled(old(session.pending), d, w)
      ensures alerts == old(alerts) + if d.FireOrSmoke? then [d.camera] else []
      ensures raised <==> Raises(d, w)
    {
      if d.Malformed? {
        return true;
      }
      if d.FireOrSmoke? {
        alerts := alerts + [d.camera];
        return false;
      }
      if d.PersonSeen? {
        raised := HandlePersonDetection(d.camera, d.at, d.embeddingLength, w);
        return;
      }
      raised := false;
    }
  }

  /** Whether nothing but the commit can keep this message from being committed. */
  predicate Committable(t: Tables, d: Detection, w: World) {
    !Raises(d, w) && (d.PersonSeen? ==> d.camera in t.cameras)
  }

  /** How an attempt at this message looks to the consumer. */
  function AttemptAt(t: Tables, d: Detection, w: World): DetectionConsumer.Attempt {
    if !Committable(t, d, w) || w.commit.CommitFails? then DetectionConsumer.Raises
    else if w.commit.CommitsButRaises? then DetectionConsumer.RaisesAfterCommit
    else DetectionConsumer.Succeeds
  }

  /** An attempt succeeds if and only if the message is well formed, the vector store does
      what it is asked, a person's camera exists, and the commit does not raise. */
  lemma AttemptSucceedsExactly(t: Tables, d: Detection, w: World)
    ensures AttemptAt(t, d, w).Succeeds? <==>
      && !d.Malformed? && w.commit.Commits?
      && (d.PersonSeen? ==>
            && d.camera in t.cameras
            && (d.embeddingLength == 512 ==> w.searchWorks && (w.found.Some? || w.indexWorks)))
  {
  }

  /** What is committed for a person's detection is one more sighting of whoever it is filed
      under; nothing is for any other message. */
  lemma HandledFiles(t: Tables, d: Detection, w: World)
    ensures if d.PersonSeen? then
        var p := if d.embeddingLength == 512 && w.found.Some? then w.found.value else w.newId;
        FiledUnder(t, Handled(t, d, w), p, d.camera, d.at, w.rowId)
      else Handled(t, d, w) == t
  {
  }

  /** One attempt at a message: all of its writes are committed, or none. The consumer sees
      it raise without effect exactly when none are; a commit whose acknowledgement is lost
      raises with all of them in place. A fire alert is out in any case, also when the
      transaction is rolled back. */
  method ProcessMessage(session: Session, useCase: ProcessTrackingEventUseCase, d: Detection, w: World)
      returns (raised: bool)
    requires useCase.Valid() && useCase.session == session && session.pending == session.committed
    requires w.newId !in session.committed.persons && w.rowId !in session.committed.rows
    requires Coherent(session.committed) && Counted(session.committed)
    modifies session, useCase`alerts
    ensures Coherent(session.committed) && Counted(session.committed)
    ensures var attempt := old(AttemptAt(session.committed, d, w));
      && (raised <==> !attempt.Succeeds?)
      && session.committed == if attempt.Raises? then old(session.committed) else Handled(old(session.committed), d, w)
    ensures session.pending == session.committed
    ensures useCase.alerts == old(useCase.alerts) + if d.FireOrSmoke? then [d.camera] else []
  {
    assert forall r :: r in session.committed.rows ==> RowCoherent(session.committed, session.committed.rows[r]);
    if d.PersonSeen? && d.camera in session.committed.cameras {
      IngestKeepsTables(session.committed, Resolve(d.embeddingLength, w.found, w.newId), d.camera, d.at, w.rowId);
    }
    hide Coherent, Counted;
    raised := useCase.Execute(d, w);
    if raised {
      session.Rollback();
      return;
    }
    assert d.PersonSeen? ==> session.pending.rows[w.rowId].camera == d.camera;
    raised := session.Commit(w.commit);
    if raised {
      session.Rollback();
    }
  }

  /** Fetches by comparing with the cutoff, deletes by id, then commits; any exception
      rolls back what is not committed and is raised again. */
  method ExecuteCleanup(session: Session, cutoff: Time, statementsWork: bool, commit: CommitReply)
      returns (raised: bool)
    requires session.pending == session.committed && Coherent(session.committed) && Counted(session.committed)
    modifies session
    ensures Coherent(session.committed) && Counted(session.committed)
    ensures session.pending == session.committed
    ensures session.committed ==
      if statementsWork && !commit.CommitFails? then Retention.Retained(old(session.committed), cutoff)
      else old(session.committed)
    ensures raised <==> !statementsWork || !commit.Commits?
  {
    hide Coherent, Counted, Purged, RowsBefore, PersonsBefore, Retention.Retained;
    ghost var before := session.committed;
    var rowIds := RowsBefore(session.pending, cutoff);
    var personIds := PersonsBefore(session.pending, cutoff);
    CleanupRetains(before, cutoff);
    PurgeInTwo(before, rowIds, personIds);
    if !statementsWork {
      session.Rollback();
      return true;
    }
    if rowIds != {} {
      session.pending := Purged(session.pending, rowIds, {});
    }
    if personIds != {} {
      session.pending := Purged(session.pending, {}, personIds);
    }
    assert session.pending == Retention.Retained(before, cutoff);
    raised := session.Commit(commit);
    if raised {
      session.Rollback();
    }
  }

  /** Deleting what the selects fetch leaves what is not expired, in coherent tables. */
  lemma CleanupRetains(t: Tables, cutoff: Time)
    requires Coherent(t) && Counted(t)
    ensures var kept := Retention.Retained(t, cutoff);
      && Purged(t, RowsBefore(t, cutoff), PersonsBefore(t, cutoff)) == kept && Coherent(kept) && Counted(kept)
      && forall r :: r in kept.rows ==> kept.rows[r].camera in kept.cameras
  {
    Retention.AtomicRetention(State(t, map[], t.rows.Keys), 0, cutoff);
    PurgeKeepsTables(t, RowsBefore(t, cutoff), PersonsBefore(t, cutoff));
    var kept := Purged(t, RowsBefore(t, cutoff), PersonsBefore(t, cutoff));
    assert forall r :: r in kept.rows ==> RowCoherent(kept, kept.rows[r]);
  }

  lemma PurgeInTwo(t: Tables, rowIds: set<Id>, personIds: set<Id>)
    ensures Purged(Purged(t, rowIds, {}), {}, personIds) == Purged(t, rowIds, personIds)
    ensures rowIds == {} ==> Purged(t, rowIds, {}) == t
    ensures personIds == {} ==> Purged(t, rowIds, personIds) == Purged(t, rowIds, {})
  {
    var once, twice := Purged(t, rowIds, personIds), Purged(Purged(t, rowIds, {}), {}, personIds);
    assert once.persons == twice.persons;
    assert once.rows == twice.rows;
    assert rowIds == {} ==> Purged(t, {}, {}).rows == t.rows && Purged(t, {}, {}).persons == t.persons;
  }
}
