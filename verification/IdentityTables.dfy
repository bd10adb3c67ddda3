/** The relational tables of persons and tracking rows, the transaction that ingests one
    detection, the retention job's separate statements, and camera deletion with its
    cascade, as steps that interleave. */
module IdentityTables {
  import opened Collections
  import opened Wrappers

  type Id = nat
  type Time = int

  datatype Person = Person(firstSeen: Time, lastSeen: Time, total: nat)

  datatype Row = Row(person: Option<Id>, camera: Id, timestamp: Time)

  datatype Tables = Tables(cameras: set<Id>, persons: map<Id, Person>, rows: map<Id, Row>)

  const EMBEDDING_SIZE := 512

  // ------------------------------------------------------------------- ingestion

  /** `Person.update_appearance`. */
  function Appear(p: Person, at: Time): Person {
    Person(if at < p.firstSeen then at else p.firstSeen, if at > p.lastSeen then at else p.lastSeen, p.total + 1)
  }

  /** The person a detection is filed under: the vector store's answer, whatever it is,
      for embeddings of the right length, else a new identity. */
  function Resolve(embeddingLength: nat, found: Option<Id>, newId: Id): Id {
    if embeddingLength == EMBEDDING_SIZE && found.Some? then found.value else newId
  }

  /** The tables after the person and the tracking row of one detection are written. */
  function Ingested(t: Tables, id: Id, camera: Id, at: Time, rowId: Id): Tables {
    var person := if id in t.persons then Appear(t.persons[id], at) else Person(at, at, 1);
    t.(persons := t.persons[id := person], rows := t.rows[rowId := Row(Some(id), camera, at)])
  }

  // ------------------------------------------------------------- retention, cameras

  function RowsBefore(t: Tables, cutoff: Time): set<Id> {
    set r | r in t.rows && t.rows[r].timestamp < cutoff
  }

  function PersonsBefore(t: Tables, cutoff: Time): set<Id> {
    set p | p in t.persons && t.persons[p].lastSeen < cutoff
  }

  /** ON DELETE SET NULL. */
  function Unlink(r: Row, gone: set<Id>): Row {
    if r.person.Some? && r.person.value in gone then r.(person := None) else r
  }

  /** The job's deletes by primary key: rows first, then persons. */
  function Purged(t: Tables, rowIds: set<Id>, personIds: set<Id>): Tables {
    t.(persons := t.persons - personIds,
       rows := map r | r in t.rows && r !in rowIds :: Unlink(t.rows[r], personIds))
  }

  /** ON DELETE CASCADE. */
  function WithoutCamera(t: Tables, camera: Id): Tables {
    t.(cameras := t.cameras - {camera},
       rows := map r | r in t.rows && t.rows[r].camera != camera :: t.rows[r])
  }

  // ----------------------------------------------------------------------- steps

  /** A retention run in flight: what its first select fetched, which rows that select
      saw, and, later, what the person select fetched. */
  datatype Job =
    | RowsFetched(cutoff: Time, rowIds: set<Id>, seen: set<Id>)
    | AllFetched(cutoff: Time, rowIds: set<Id>, seen: set<Id>, personIds: set<Id>)

  /** `usedRows` are all row ids ever drawn. */
  datatype State = State(tables: Tables, jobs: map<nat, Job>, usedRows: set<Id>)

  datatype Step =
    | Ingest(embeddingLength: nat, found: Option<Id>, newId: Id, camera: Id, at: Time, rowId: Id)
    | FetchRows(job: nat, cutoff: Time)
    | FetchPersons(job: nat)
    | Apply(job: nat)
    | Abandon(job: nat)
    | AddCamera(camera: Id)
    | DropCamera(camera: Id)

  const INITIAL := State(Tables({}, map[], map[]), map[], {})

  /** Ids drawn at random are new; the row's camera must exist or the commit fails. */
  predicate Enabled(s: State, step: Step) {
    match step
    case Ingest(_, _, newId, camera, _, rowId) =>
      newId !in s.tables.persons && camera in s.tables.cameras && rowId !in s.usedRows
    case FetchRows(j, _) => j !in s.jobs
    case FetchPersons(j) => j in s.jobs && s.jobs[j].RowsFetched?
    case Apply(j) => j in s.jobs && s.jobs[j].AllFetched?
    case Abandon(j) => j in s.jobs
    case AddCamera(_) => true
    case DropCamera(_) => true
  }

  function Next(s: State, step: Step): State
    requires Enabled(s, step)
  {
    match step
    case Ingest(n, found, newId, camera, at, rowId) =>
      s.(tables := Ingested(s.tables, Resolve(n, found, newId), camera, at, rowId), usedRows := s.usedRows + {rowId})
    case FetchRows(j, cutoff) =>
      s.(jobs := s.jobs[j := RowsFetched(cutoff, RowsBefore(s.tables, cutoff), s.tables.rows.Keys)])
    case FetchPersons(j) =>
      var job := s.jobs[j];
      s.(jobs := s.jobs[j := AllFetched(job.cutoff, job.rowIds, job.seen, PersonsBefore(s.tables, job.cutoff))])
    case Apply(j) =>
      s.(tables := Purged(s.tables, s.jobs[j].rowIds, s.jobs[j].personIds), jobs := s.jobs - {j})
    case Abandon(j) => s.(jobs := s.jobs - {j})
    case AddCamera(c) => s.(tables := s.tables.(cameras := s.tables.cameras + {c}))
    case DropCamera(c) => s.(tables := WithoutCamera(s.tables, c))
  }

  // ------------------------------------------------------------------- invariants

  ghost predicate RowCoherent(t: Tables, r: Row) {
    && r.camera in t.cameras
    && (r.person.Some? ==>
          && r.person.value in t.persons
          && t.persons[r.person.value].firstSeen <= r.timestamp <= t.persons[r.person.value].lastSeen)
  }

  /** Foreign keys hold, every row lies between its person's first and last sighting. */
  ghost predicate Coherent(t: Tables) {
    && (forall r :: r in t.rows ==> RowCoherent(t, t.rows[r]))
    && (forall p :: p in t.persons ==> t.persons[p].firstSeen <= t.persons[p].lastSeen)
  }

  function RowsOf(t: Tables, p: Id): set<Id> {
    set r | r in t.rows && t.rows[r].person == Some(p)
  }

  /** A person never has more rows than counted appearances. */
  ghost predicate Counted(t: Tables) {
    forall p :: p in t.persons ==> |RowsOf(t, p)| <= t.persons[p].total
  }

  /** A row of p carries exactly this time. */
  ghost predicate HasRowAt(t: Tables, p: Id, at: Time) {
    exists r :: r in t.rows && t.rows[r].person == Some(p) && t.rows[r].timestamp == at
  }

  /** Every person still owns the row that is their latest sighting. */
  ghost predicate Owned(t: Tables) {
    forall p :: p in t.persons ==> HasRowAt(t, p, t.persons[p].lastSeen)
  }

  /** What a retention run in flight relies on. */
  ghost predicate JobSound(t: Tables, usedRows: set<Id>, job: Job) {
    && job.rowIds <= job.seen <= usedRows
    && (forall r :: r in job.seen && r in t.rows ==> (r in job.rowIds <==> t.rows[r].timestamp < job.cutoff))
    && (job.AllFetched? ==> forall r :: r in job.seen && r in t.rows && t.rows[r].person.Some? ==>
          Foreseen(t, job, r, t.rows[r].person.value))
  }

  /** The person select spares the persons of rows the row select spared, and fetches
      those of fetched rows whose last sighting is still expired. */
  ghost predicate Foreseen(t: Tables, job: Job, r: Id, p: Id)
    requires job.AllFetched?
  {
    && (r !in job.rowIds ==> p !in job.personIds)
    && (r in job.rowIds && p in t.persons && t.persons[p].lastSeen < job.cutoff ==> p in job.personIds)
  }

  ghost predicate Inv(s: State) {
    && Coherent(s.tables) && Counted(s.tables)
    && s.tables.rows.Keys <= s.usedRows
    && forall j :: j in s.jobs ==> JobSound(s.tables, s.usedRows, s.jobs[j])
  }

  // ------------------------------------------------------ whom a detection is filed under

  /** Person p is filed as seen once more, everybody else is as before, and the one new
      row is that of this sighting. */
  predicate FiledUnder(t: Tables, n: Tables, p: Id, camera: Id, at: Time, rowId: Id) {
    && n.cameras == t.cameras && n.rows == t.rows[rowId := Row(Some(p), camera, at)]
    && n.persons.Keys == t.persons.Keys + {p}
    && (forall q :: q in t.persons && q != p ==> n.persons[q] == t.persons[q])
    && (p !in t.persons ==> n.persons[p] == Person(at, at, 1))
    && (p in t.persons ==>
          && n.persons[p].total == t.persons[p].total + 1
          && n.persons[p].firstSeen == (if at <= t.persons[p].firstSeen then at else t.persons[p].firstSeen)
          && n.persons[p].lastSeen == (if at >= t.persons[p].lastSeen then at else t.persons[p].lastSeen))
  }

  /** NEW IDENTITIES. A detection without an embedding of 512 numbers, or without a match,
      always creates a person, whatever the vector store holds, and changes nobody. */
  lemma UnmatchedCreatesPerson(s: State, step: Step)
    requires Enabled(s, step) && step.Ingest? && (step.embeddingLength != 512 || step.found == None)
    ensures step.newId !in s.tables.persons
    ensures FiledUnder(s.tables, Next(s, step).tables, step.newId, step.camera, step.at, step.rowId)
    ensures |Next(s, step).tables.persons| == |s.tables.persons| + 1
  {
    assert Next(s, step).tables.persons.Keys == s.tables.persons.Keys + {step.newId};
  }

  /** MATCHES. A match is filed under the id found: nobody is created if the tables know
      that person, and otherwise they are created under that very id. */
  lemma MatchedCreatesNobody(s: State, step: Step)
    requires Enabled(s, step) && step.Ingest? && step.embeddingLength == 512 && step.found.Some?
    ensures FiledUnder(s.tables, Next(s, step).tables, step.found.value, step.camera, step.at, step.rowId)
    ensures step.found.value in s.tables.persons ==> Next(s, step).tables.persons.Keys == s.tables.persons.Keys
  {
  }

  // ------------------------------------------------------- each step keeps the tables

  lemma IngestKeepsTables(t: Tables, id: Id, camera: Id, at: Time, rowId: Id)
    requires Coherent(t) && Counted(t) && camera in t.cameras && rowId !in t.rows
    ensures Coherent(Ingested(t, id, camera, at, rowId)) && Counted(Ingested(t, id, camera, at, rowId))
  {
    var n := Ingested(t, id, camera, at, rowId);
    forall r | r in n.rows ensures RowCoherent(n, n.rows[r]) {
      if r != rowId { assert RowCoherent(t, t.rows[r]); }
    }
    forall p | p in n.persons ensures |RowsOf(n, p)| <= n.persons[p].total {
      IngestCounts(t, id, camera, at, rowId, p);
    }
  }

  lemma IngestCounts(t: Tables, id: Id, camera: Id, at: Time, rowId: Id, p: Id)
    requires Coherent(t) && rowId !in t.rows
    ensures var n := Ingested(t, id, camera, at, rowId);
            |RowsOf(n, p)| == |RowsOf(t, p)| + if p == id then 1 else 0
    ensures p !in t.persons ==> RowsOf(t, p) == {}
  {
    var n := Ingested(t, id, camera, at, rowId);
    if p !in t.persons {
      forall r | r in t.rows ensures t.rows[r].person != Some(p) { assert RowCoherent(t, t.rows[r]); }
    }
    hide Coherent, RowCoherent, Appear;
    forall r | r in t.rows ensures n.rows[r] == t.rows[r] {}
    var before, after := RowsOf(t, p), RowsOf(n, p);
    assert rowId !in before;
    if p == id {
      assert after == before + {rowId};
    } else {
      assert after == before;
    }
  }

  lemma PurgeKeepsTables(t: Tables, rowIds: set<Id>, personIds: set<Id>)
    requires Coherent(t) && Counted(t)
    ensures Coherent(Purged(t, rowIds, personIds)) && Counted(Purged(t, rowIds, personIds))
  {
    var n := Purged(t, rowIds, personIds);
    forall r | r in n.rows ensures RowCoherent(n, n.rows[r]) { assert RowCoherent(t, t.rows[r]); }
    FewerRows(t, n);
  }

  lemma DropCameraKeepsTables(t: Tables, camera: Id)
    requires Coherent(t) && Counted(t)
    ensures Coherent(WithoutCamera(t, camera)) && Counted(WithoutCamera(t, camera))
    ensures WithoutCamera(t, camera).persons == t.persons
    ensures forall r :: r in t.rows && t.rows[r].camera != camera ==>
      r in WithoutCamera(t, camera).rows && WithoutCamera(t, camera).rows[r] == t.rows[r]
  {
    var n := WithoutCamera(t, camera);
    forall r | r in n.rows ensures RowCoherent(n, n.rows[r]) { assert RowCoherent(t, t.rows[r]); }
    FewerRows(t, n);
  }

  lemma FewerRows(t: Tables, n: Tables)
    requires Counted(t)
    requires forall p :: p in n.persons ==> p in t.persons && n.persons[p] == t.persons[p]
    requires forall r :: r in n.rows ==>
      r in t.rows && (n.rows[r].person.Some? ==> n.rows[r].person == t.rows[r].person)
    ensures Counted(n)
  {
    forall p | p in n.persons ensures |RowsOf(n, p)| <= n.persons[p].total {
      SubsetSize(RowsOf(n, p), RowsOf(t, p));
    }
  }

  // ------------------------------------------------- each step keeps the jobs in flight

  /** Later tables in which rows only disappear or lose their person, and persons that
      still have a seen row are only sighted later. */
  ghost predicate Aged(t: Tables, n: Tables, seen: set<Id>) {
    && (forall r :: r in seen && r in n.rows ==>
          r in t.rows && n.rows[r].timestamp == t.rows[r].timestamp
          && (n.rows[r].person.Some? ==> n.rows[r].person == t.rows[r].person))
    && (forall r :: r in seen && r in n.rows && n.rows[r].person.Some? && n.rows[r].person.value in n.persons ==>
          var p := n.rows[r].person.value;
          p in t.persons && t.persons[p].lastSeen <= n.persons[p].lastSeen)
  }

  lemma AgingKeepsJob(t: Tables, n: Tables, usedRows: set<Id>, usedRows': set<Id>, job: Job)
    requires JobSound(t, usedRows, job) && usedRows <= usedRows' && Aged(t, n, job.seen)
    ensures JobSound(n, usedRows', job)
  {
    if job.AllFetched? {
      forall r | r in job.seen && r in n.rows && n.rows[r].person.Some?
        ensures Foreseen(n, job, r, n.rows[r].person.value)
      {
        assert Foreseen(t, job, r, t.rows[r].person.value);
      }
    }
  }

  lemma IngestAges(t: Tables, id: Id, camera: Id, at: Time, rowId: Id, seen: set<Id>)
    requires Coherent(t) && rowId !in seen
    ensures Aged(t, Ingested(t, id, camera, at, rowId), seen)
  {
    var n := Ingested(t, id, camera, at, rowId);
    forall r | r in seen && r in n.rows && n.rows[r].person.Some? && n.rows[r].person.value in n.persons
      ensures var p := n.rows[r].person.value; p in t.persons && t.persons[p].lastSeen <= n.persons[p].lastSeen
    {
      assert RowCoherent(t, t.rows[r]);
    }
  }

  lemma StepAgesJobs(s: State, step: Step, seen: set<Id>)
    requires Inv(s) && Enabled(s, step) && seen <= s.usedRows
    ensures Aged(s.tables, Next(s, step).tables, seen)
  {
    match step
    case Ingest(n, found, newId, camera, at, rowId) =>
      IngestAges(s.tables, Resolve(n, found, newId), camera, at, rowId, seen);
    case _ =>
  }

  lemma FetchRowsIsSound(t: Tables, usedRows: set<Id>, cutoff: Time)
    requires t.rows.Keys <= usedRows
    ensures JobSound(t, usedRows, RowsFetched(cutoff, RowsBefore(t, cutoff), t.rows.Keys))
  {
  }

  lemma FetchPersonsIsSound(t: Tables, usedRows: set<Id>, job: Job)
    requires Coherent(t) && JobSound(t, usedRows, job) && job.RowsFetched?
    ensures JobSound(t, usedRows, AllFetched(job.cutoff, job.rowIds, job.seen, PersonsBefore(t, job.cutoff)))
  {
    var full := AllFetched(job.cutoff, job.rowIds, job.seen, PersonsBefore(t, job.cutoff));
    forall r | r in full.seen && r in t.rows && t.rows[r].person.Some?
      ensures Foreseen(t, full, r, t.rows[r].person.value)
    {
      assert RowCoherent(t, t.rows[r]);
    }
  }

  lemma StepKeepsInv(s: State, step: Step)
    requires Inv(s) && Enabled(s, step)
    ensures Inv(Next(s, step))
  {
    var n := Next(s, step);
    StepKeepsTables(s, step);
    hide Coherent, Counted, JobSound, Aged;
    forall j | j in n.jobs ensures JobSound(n.tables, n.usedRows, n.jobs[j]) {
      if j in s.jobs && n.jobs[j] == s.jobs[j] {
        SeenIsUsed(s, j);
        StepAgesJobs(s, step, s.jobs[j].seen);
        AgingKeepsJob(s.tables, n.tables, s.usedRows, n.usedRows, s.jobs[j]);
      } else if step.FetchRows? {
        FetchRowsIsSound(s.tables, s.usedRows, step.cutoff);
      } else {
        FetchPersonsIsSound(s.tables, s.usedRows, s.jobs[j]);
      }
    }
  }

  lemma SeenIsUsed(s: State, j: nat)
    requires Inv(s) && j in s.jobs
    ensures s.jobs[j].seen <= s.usedRows
  {
  }

  lemma StepKeepsTables(s: State, step: Step)
    requires Inv(s) && Enabled(s, step)
    ensures var n := Next(s, step);
            Coherent(n.tables) && Counted(n.tables) && n.tables.rows.Keys <= n.usedRows
  {
    match step
    case Ingest(n, found, newId, camera, at, rowId) =>
      IngestKeepsTables(s.tables, Resolve(n, found, newId), camera, at, rowId);
    case Apply(j) => PurgeKeepsTables(s.tables, s.jobs[j].rowIds, s.jobs[j].personIds);
    case DropCamera(c) => DropCameraKeepsTables(s.tables, c);
    case AddCamera(c) =>
      forall p | p in s.tables.persons ensures RowsOf(Next(s, step).tables, p) == RowsOf(s.tables, p) {}
      forall r | r in s.tables.rows ensures RowCoherent(Next(s, step).tables, s.tables.rows[r]) {
        assert RowCoherent(s.tables, s.tables.rows[r]);
      }
    case _ =>
  }
}
