/**
 * Attendance sessions and records. Every committed mark or identification upserts one
 * record and appends one `attendance.recorded` event in the same transaction, so the
 * event log alone determines the table.
 */
module Attendance {
  import opened Options
  import opened FaceEmbedding
  import opened FaceSearch

  datatype SessionStatus = OPEN | CLOSED
  datatype Status = PRESENT | LATE | ABSENT
  datatype Method = FACE | MANUAL

  datatype Session = Session(course: nat, status: SessionStatus, startedAt: nat, endedAt: Option<nat>)
  datatype Record = Record(id: nat, status: Status, via: Method, similarity: Option<real>, capturedAt: nat)

  /** (session, student), the table's unique key. */
  type Key = (nat, nat)

  /** An `attendance.recorded` payload; manual events carry no similarity. */
  datatype Event = Recorded(key: Key, course: nat, recordId: nat, status: Status, via: Method,
                            similarity: Option<real>, capturedAt: nat)

  /** `created` counts the records ever created: the next record's id. */
  datatype State = State(
    professors: map<nat, nat>, students: set<nat>, rosters: map<nat, set<nat>>, faces: seq<Enrolled>,
    sessions: seq<Session>, records: map<Key, Record>, created: nat, events: seq<Event>)

  datatype Actor = Actor(admin: bool, user: nat)
  datatype Error =
    | NotFound | Forbidden | Conflict | StudentNotFound | AiUnavailable | AiError | NoFaceDetected | DatabaseError

  /** What the AI service answers for an image. */
  datatype Extraction = Unavailable | Fault | NoFace | Face(vector: Vector)
  datatype Identified =
    Identified(matched: bool, similarity: Option<real>, student: Option<nat>, record: Option<Record>)

  /** `isSessionOpen` of the domain layer. */
  predicate IsSessionOpen(s: Session) { s.status == OPEN && s.endedAt.None? }

  // ---- Service calls, each one atomic step ----------------------------------------

  function SessionForActor(s: State, session: nat, actor: Actor): Option<Error> {
    if session >= |s.sessions| then Some(NotFound)
    else
      var course := s.sessions[session].course;
      if !actor.admin && (course !in s.professors || s.professors[course] != actor.user) then Some(Forbidden) else None
  }

  function Open(s: State, course: nat, actor: Actor, now: nat): (State, Result<Session, Error>) {
    if course !in s.professors then (s, Err(NotFound))
    else if !actor.admin && s.professors[course] != actor.user then (s, Err(Forbidden))
    else
      var session := Session(course, OPEN, now, None);
      (s.(sessions := s.sessions + [session]), Ok(session))
  }

  function Close(s: State, session: nat, actor: Actor, now: nat): (State, Result<Session, Error>) {
    var denied := SessionForActor(s, session, actor);
    if denied.Some? then (s, Err(denied.value))
    else if s.sessions[session].status == CLOSED then (s, Err(Conflict))
    else
      var closed := s.sessions[session].(status := CLOSED, endedAt := Some(now));
      (s.(sessions := s.sessions[session := closed]), Ok(closed))
  }

  /** The record an upsert leaves; without a new similarity an existing one stays. */
  function Upserted(s: State, key: Key, status: Status, via: Method, similarity: Option<real>, now: nat): Record {
    if key in s.records then
      var r := s.records[key];
      Record(r.id, status, via, if similarity.Some? then similarity else r.similarity, r.capturedAt)
    else Record(s.created, status, via, similarity, now)
  }

  /** The transaction both calls run: upsert, then append the event. */
  function Write(s: State, key: Key, status: Status, via: Method, similarity: Option<real>, now: nat): State
    requires key.0 < |s.sessions|
  {
    var r := Upserted(s, key, status, via, similarity, now);
    s.(records := s.records[key := r],
       created := if key in s.records then s.created else s.created + 1,
       events := s.events + [Recorded(key, s.sessions[key.0].course, r.id, status, via, similarity, r.capturedAt)])
  }

  function Mark(s: State, session: nat, student: nat, status: Status, actor: Actor, now: nat, commits: bool)
    : (State, Result<Record, Error>)
  {
    var denied := SessionForActor(s, session, actor);
    if denied.Some? then (s, Err(denied.value))
    else if s.sessions[session].status != OPEN then (s, Err(Conflict))
    else if (session, student) !in s.records && student !in s.students then (s, Err(StudentNotFound))
    else if !commits then (s, Err(DatabaseError))
    else
      var s' := Write(s, (session, student), status, MANUAL, None, now);
      (s', Ok(s'.records[(session, student)]))
  }

  function RosterOf(s: State, course: nat): set<nat> { if course in s.rosters then s.rosters[course] else {} }

  /** Neither the image nor a face on the session's roster has the zero vector. */
  ghost predicate Searchable(sqrt: real -> real, s: State, session: nat, image: Extraction) {
    && IsSqrt(sqrt)
    && (image.Face? && session < |s.sessions| ==>
          NonZero(s.faces, RosterOf(s, s.sessions[session].course), image.vector))
  }

  function Identify(sqrt: real -> real, threshold: real, s: State, session: nat, image: Extraction, actor: Actor,
                    now: nat, commits: bool): (State, Result<Identified, Error>)
    requires Searchable(sqrt, s, session, image)
  {
    var denied := SessionForActor(s, session, actor);
    if denied.Some? then (s, Err(denied.value))
    else if s.sessions[session].status != OPEN then (s, Err(Conflict))
    else match image
      case Unavailable => (s, Err(AiUnavailable))
      case Fault => (s, Err(AiError))
      case NoFace => (s, Err(NoFaceDetected))
      case Face(vector) =>
        var roster := RosterOf(s, s.sessions[session].course);
        if !SameDimensions(s.faces, roster, |vector|) then (s, Err(DatabaseError)) else
          var found := SearchNearestInCourse(sqrt, s.faces, roster, vector, 1);
          if found == [] then (s, Ok(Identified(false, None, None, None)))
          else if !IsMatch(found[0].similarity, threshold) then
            (s, Ok(Identified(false, Some(found[0].similarity), None, None)))
          else if !commits then (s, Err(DatabaseError))
          else
            var best := found[0];
            var key := (session, best.student);
            var s' := Write(s, key, PRESENT, FACE, Some(best.similarity), now);
            (s', Ok(Identified(true, Some(best.similarity), Some(best.student), Some(s'.records[key]))))
  }

  // ---- What the calls mean --------------------------------------------------------------

  /** What every reachable state satisfies. */
  ghost predicate Inv(threshold: real, s: State) {
    && (forall i | 0 <= i < |s.sessions| :: s.sessions[i].status == OPEN <==> s.sessions[i].endedAt.None?)
    && (forall k | k in s.records :: k.0 < |s.sessions| && s.records[k].id < s.created)
    && (forall k, l | k in s.records && l in s.records && k != l :: s.records[k].id != s.records[l].id)
    && (forall k | k in s.records && s.records[k].via == FACE ::
          s.records[k].similarity.Some? && s.records[k].similarity.value >= threshold)
  }

  /** The two calls touch nothing but records, their counter and the log; a call commits iff it returns a record. */
  lemma OneEventPerCommit(sqrt: real -> real, threshold: real, s: State, session: nat, student: nat, status: Status,
                          image: Extraction, actor: Actor, now: nat, commits: bool)
    requires Searchable(sqrt, s, session, image)
    ensures var (s', r) := Mark(s, session, student, status, actor, now, commits);
      if r.Ok? then |s'.events| == |s.events| + 1 && s.events <= s'.events && s'.sessions == s.sessions else s' == s
    ensures var (s', r) := Identify(sqrt, threshold, s, session, image, actor, now, commits);
      if r.Ok? && r.value.matched then
        |s'.events| == |s.events| + 1 && s.events <= s'.events && s'.sessions == s.sessions
      else s' == s
  {
  }

  /** The session exists, and the actor is an admin or the professor of its course. */
  predicate MayUse(s: State, session: nat, actor: Actor) {
    && session < |s.sessions|
    && (actor.admin || s.sessions[session].course in s.professors)
    && (actor.admin || s.professors[s.sessions[session].course] == actor.user)
  }

  /**
   * Marking, closing and identifying in a session are refused as not found exactly when it
   * does not exist, and as forbidden exactly to those who are neither an admin nor the
   * professor of its course. Whatever the refusal, nothing changes.
   */
  lemma AccessRule(sqrt: real -> real, threshold: real, s: State, session: nat, student: nat, status: Status,
                   image: Extraction, actor: Actor, now: nat, commits: bool)
    requires Searchable(sqrt, s, session, image)
    ensures var missing := session >= |s.sessions|;
      var course := if missing then 0 else s.sessions[session].course;
      var outsider := !missing && !actor.admin && !(course in s.professors && s.professors[course] == actor.user);
      var (marked, m) := Mark(s, session, student, status, actor, now, commits);
      var (closed, c) := Close(s, session, actor, now);
      var (identified, i) := Identify(sqrt, threshold, s, session, image, actor, now, commits);
      && (m == Err(NotFound) <==> missing) && (m == Err(Forbidden) <==> outsider) && (m.Err? ==> marked == s)
      && (c == Err(NotFound) <==> missing) && (c == Err(Forbidden) <==> outsider) && (c.Err? ==> closed == s)
      && (i == Err(NotFound) <==> missing) && (i == Err(Forbidden) <==> outsider) && (i.Err? ==> identified == s)
  {
    hide SearchNearestInCourse, SameDimensions, Write;
  }

  /** Opening: for a course that exists, by an admin or its professor; the new session is the last. */
  lemma OpenMeaning(s: State, course: nat, actor: Actor, now: nat)
    ensures var (s', r) := Open(s, course, actor, now);
      && (r == Err(NotFound) <==> course !in s.professors)
      && (r == Err(Forbidden) <==> course in s.professors && !actor.admin && s.professors[course] != actor.user)
      && (r.Err? <==> r == Err(NotFound) || r == Err(Forbidden))
      && s'.sessions == (if r.Err? then s.sessions else s.sessions + [r.value])
      && (r.Ok? ==> r.value.course == course && r.value.status == OPEN && r.value.startedAt == now
                    && r.value.endedAt == None)
      && s'.(sessions := s.sessions) == s
  {
  }

  /** Closing sets status and end time of the one session, once; a closed one is a conflict. */
  lemma CloseMeaning(s: State, session: nat, actor: Actor, now: nat)
    ensures var (s', r) := Close(s, session, actor, now);
      && (r.Ok? <==> MayUse(s, session, actor) && s.sessions[session].status == OPEN)
      && (r == Err(Conflict) <==> MayUse(s, session, actor) && s.sessions[session].status == CLOSED)
      && s'.(sessions := s.sessions) == s && |s'.sessions| == |s.sessions|
      && (forall i | 0 <= i < |s.sessions| && (i != session || r.Err?) :: s'.sessions[i] == s.sessions[i])
      && (r.Ok? ==>
            && s'.sessions[session] == r.value && r.value.status == CLOSED && r.value.endedAt == Some(now)
            && r.value.course == s.sessions[session].course && r.value.startedAt == s.sessions[session].startedAt)
  {
  }

  /** Why a mark by someone who may use the session fails. */
  lemma MarkRefusals(s: State, session: nat, student: nat, status: Status, actor: Actor, now: nat, commits: bool)
    requires MayUse(s, session, actor)
    ensures var open := s.sessions[session].status == OPEN;
      var known := (session, student) in s.records || student in s.students;
      var r := Mark(s, session, student, status, actor, now, commits).1;
      && (r == Err(Conflict) <==> !open)
      && (r == Err(StudentNotFound) <==> open && !known)
      && (r == Err(DatabaseError) <==> open && known && !commits)
      && (r.Ok? <==> open && known && commits)
  {
    hide Write;
  }

  /**
   * A mark succeeds exactly when it is allowed, its session is open, its student exists and
   * its transaction commits. It then sets status and method of the one record of that
   * session and student, which keeps its identity, capture time and similarity if it was
   * there before; the event says what the record says.
   */
  lemma MarkMeaning(threshold: real, s: State, session: nat, student: nat, status: Status, actor: Actor, now: nat,
                    commits: bool)
    requires Inv(threshold, s)
    ensures var key := (session, student);
      var (s', r) := Mark(s, session, student, status, actor, now, commits);
      && (r.Ok? <==> MayUse(s, session, actor) && IsSessionOpen(s.sessions[session])
                     && (key in s.records || student in s.students) && commits)
      && (r.Ok? ==>
            && s'.records.Keys == s.records.Keys + {key} && s'.records[key] == r.value
            && r.value.status == status && r.value.via == MANUAL
            && (if key in s.records then
                  r.value.id == s.records[key].id && r.value.capturedAt == s.records[key].capturedAt
                  && r.value.similarity == s.records[key].similarity
                else
                  r.value.capturedAt == now && r.value.similarity.None?
                  && forall k | k in s.records :: s.records[k].id != r.value.id)
            && (forall k | k in s.records && k != key :: s'.records[k] == s.records[k])
            && s'.events == s.events
                 + [Recorded(key, s.sessions[session].course, r.value.id, status, MANUAL, None, r.value.capturedAt)])
  {
    assert forall i | 0 <= i < |s.sessions| :: IsSessionOpen(s.sessions[i]) <==> s.sessions[i].status == OPEN;
    assert forall k | k in s.records :: s.records[k].id < s.created;
    hide Inv, IsSessionOpen;
  }

  /** The face is one of a student on the roster of the session's course. */
  predicate OnRoster(s: State, session: nat, face: Enrolled) {
    && session < |s.sessions| && s.sessions[session].course in s.rosters
    && face.student in s.rosters[s.sessions[session].course]
  }

  /** Some face on the roster is at least this similar to the vector. */
  ghost predicate Reached(sqrt: real -> real, s: State, session: nat, vector: Vector, similarity: real)
    requires IsSqrt(sqrt)
  {
    exists i | 0 <= i < |s.faces| ::
      && OnRoster(s, session, s.faces[i]) && |s.faces[i].vector| == |vector|
      && Cosine(sqrt, s.faces[i].vector, vector) >= similarity
  }

  /** Every face on the roster can be compared with the image's vector. */
  predicate Comparable(s: State, session: nat, image: Extraction) {
    image.Face? ==>
      forall i | 0 <= i < |s.faces| && OnRoster(s, session, s.faces[i]) :: |s.faces[i].vector| == |image.vector|
  }

  /** Why an identification by someone who may use the session fails. */
  lemma IdentifyRefusals(sqrt: real -> real, threshold: real, s: State, session: nat, image: Extraction, actor: Actor,
                         now: nat, commits: bool)
    requires Searchable(sqrt, s, session, image) && MayUse(s, session, actor)
    ensures var open := s.sessions[session].status == OPEN;
      var comparable := Comparable(s, session, image);
      var r := Identify(sqrt, threshold, s, session, image, actor, now, commits).1;
      && (r == Err(Conflict) <==> !open)
      && (r == Err(AiUnavailable) <==> open && image.Unavailable?)
      && (r == Err(AiError) <==> open && image.Fault?)
      && (r == Err(NoFaceDetected) <==> open && image.NoFace?)
      && (r == Err(DatabaseError) <==>
            open && image.Face?
            && (!comparable || (Reached(sqrt, s, session, image.vector, threshold) && !commits)))
      && (r.Ok? <==>
            open && image.Face? && comparable && (Reached(sqrt, s, session, image.vector, threshold) ==> commits))
  {
    hide Cosine, Write;
    if image.Face? {
      var roster := RosterOf(s, s.sessions[session].course);
      assert forall face: Enrolled :: OnRoster(s, session, face) <==> face.student in roster;
      hide OnRoster;
      if SameDimensions(s.faces, roster, |image.vector|) {
        ClosestFace(sqrt, s.faces, roster, image.vector);
      }
    }
  }

  /**
   * An allowed identification on an open session matches exactly when some face on the
   * roster reaches the threshold, and then a student with the greatest similarity of all.
   * It reports that similarity, matched or not, and none only for a roster without faces.
   */
  lemma IdentifyMeaning(sqrt: real -> real, threshold: real, s: State, session: nat, vector: Vector, actor: Actor,
                        now: nat, commits: bool)
    requires Searchable(sqrt, s, session, Face(vector))
    requires Identify(sqrt, threshold, s, session, Face(vector), actor, now, commits).1.Ok?
    ensures var r := Identify(sqrt, threshold, s, session, Face(vector), actor, now, commits).1.value;
      && (r.matched <==> Reached(sqrt, s, session, vector, threshold))
      && (r.similarity.Some? <==> exists i | 0 <= i < |s.faces| :: OnRoster(s, session, s.faces[i]))
      && (forall i | 0 <= i < |s.faces| && OnRoster(s, session, s.faces[i]) ::
            |s.faces[i].vector| == |vector| && Cosine(sqrt, s.faces[i].vector, vector) <= r.similarity.value)
      && (r.similarity.Some? ==> Reached(sqrt, s, session, vector, r.similarity.value))
      && (r.matched ==>
            && r.student.Some?
            && exists i | 0 <= i < |s.faces| ::
                 && OnRoster(s, session, s.faces[i]) && |s.faces[i].vector| == |vector|
                 && s.faces[i].student == r.student.value
                 && Cosine(sqrt, s.faces[i].vector, vector) == r.similarity.value)
      && (!r.matched ==> r.student == None && r.record == None)
  {
    hide Cosine, Write;
    var roster := RosterOf(s, s.sessions[session].course);
    assert forall face: Enrolled :: OnRoster(s, session, face) <==> face.student in roster;
    hide OnRoster;
    ClosestFace(sqrt, s.faces, roster, vector);
  }

  /**
   * A matched identification writes the one record of that session and student: PRESENT by
   * FACE with this similarity; it keeps its identity and capture time if it was there
   * before, and the event says what the record says.
   */
  lemma IdentifyWrites(sqrt: real -> real, threshold: real, s: State, session: nat, image: Extraction, actor: Actor,
                       now: nat, commits: bool)
    requires Inv(threshold, s) && Searchable(sqrt, s, session, image)
    requires Identify(sqrt, threshold, s, session, image, actor, now, commits).1.Ok?
    ensures var (s', r) := Identify(sqrt, threshold, s, session, image, actor, now, commits);
      if !r.value.matched then s' == s
      else
        && r.value.student.Some? && r.value.similarity.Some? && r.value.record.Some?
        && var key, record := (session, r.value.student.value), r.value.record.value;
           && s'.records.Keys == s.records.Keys + {key} && s'.records[key] == record
           && record.status == PRESENT && record.via == FACE && record.similarity == r.value.similarity
           && (if key in s.records then record.id == s.records[key].id && record.capturedAt == s.records[key].capturedAt
               else record.capturedAt == now && forall k | k in s.records :: s.records[k].id != record.id)
           && (forall k | k in s.records && k != key :: s'.records[k] == s.records[k])
           && s'.events == s.events
                + [Recorded(key, s.sessions[session].course, record.id, PRESENT, FACE, record.similarity,
                            record.capturedAt)]
  {
    assert forall k | k in s.records :: s.records[k].id < s.created;
    hide Inv, SearchNearestInCourse, SameDimensions, Searchable, MayUse;
  }

  // ---- The log determines the table ---------------------------------------------------------

  /** Replaying one event: the last one wins, except that a missing similarity keeps the earlier one. */
  function Replay(table: map<Key, Record>, e: Event): map<Key, Record> {
    var similarity := if e.similarity.None? && e.key in table then table[e.key].similarity else e.similarity;
    table[e.key := Record(e.recordId, e.status, e.via, similarity, e.capturedAt)]
  }

  function Fold(events: seq<Event>): map<Key, Record> {
    if events == [] then map[] else Replay(Fold(events[..|events| - 1]), events[|events| - 1])
  }

  /** The last event alone gives the record's similarity exactly when the mark did not cover an identified face. */
  lemma LastEventSimilarity(s: State, session: nat, student: nat, status: Status, now: nat)
    requires session < |s.sessions|
    ensures var s' := Write(s, (session, student), status, MANUAL, None, now);
      s'.events[|s.events|].similarity == s'.records[(session, student)].similarity
      <==> !((session, student) in s.records && s.records[(session, student)].similarity.Some?)
  {
  }

  // ---- Calls as checks and transactions ------------------------------------------------------

  /**
   * A call between its check and its transaction. `since` is the number of the step that
   * made the check: history, not something the call knows.
   */
  datatype Call =
    | Closing(session: nat, since: nat)
    | Searching(session: nat, vector: Vector, since: nat)
    | Writing(session: nat, student: nat, status: Status, via: Method, similarity: Option<real>, since: nat)

  /** The tables, the calls in flight, and the number of steps made. */
  datatype World = World(state: State, pending: map<nat, Call>, count: nat)

  /** `Change` is whatever other services do to courses, students, rosters and faces. */
  datatype Step =
    | OpenStep(course: nat, actor: Actor, now: nat)
    | CheckClose(caller: nat, session: nat, actor: Actor)
    | CheckMark(caller: nat, session: nat, student: nat, status: Status, actor: Actor)
    | CheckIdentify(caller: nat, session: nat, image: Extraction, actor: Actor)
    | Search(caller: nat)
    | Commit(caller: nat, now: nat, commits: bool)
    | Change(professors: map<nat, nat>, students: set<nat>, rosters: map<nat, set<nat>>, faces: seq<Enrolled>)

  /** The check that all calls on a session begin with: it exists, the actor may use it, and it is open. */
  predicate Passes(s: State, session: nat, actor: Actor) {
    MayUse(s, session, actor) && s.sessions[session].status == OPEN
  }

  /** The call goes on with `next`, or ends. */
  function Continue(w: World, caller: nat, next: Option<Call>): World {
    w.(pending := if next.Some? then w.pending[caller := next.value] else w.pending - {caller}, count := w.count + 1)
  }

  /** What a search leaves to write, if it found a match. */
  ghost function Found(sqrt: real -> real, threshold: real, s: State, c: Call): Option<Call>
    requires c.Searching?
  {
    if !Searchable(sqrt, s, c.session, Face(c.vector)) || c.session >= |s.sessions| then None
    else
      var roster := RosterOf(s, s.sessions[c.session].course);
      if !SameDimensions(s.faces, roster, |c.vector|) then None
      else
        var found := SearchNearestInCourse(sqrt, s.faces, roster, c.vector, 1);
        if found == [] || !IsMatch(found[0].similarity, threshold) then None
        else Some(Writing(c.session, found[0].student, PRESENT, FACE, Some(found[0].similarity), c.since))
  }

  /** A marked student must exist; one that the search found does. */
  predicate Commits(s: State, c: Call) {
    && c.Writing? && c.session < |s.sessions|
    && (c.via == FACE || (c.session, c.student) in s.records || c.student in s.students)
  }

  /** The tables after a call's transaction. */
  function Committed(s: State, c: Call, now: nat): State {
    if c.Closing? && c.session < |s.sessions| then
      s.(sessions := s.sessions[c.session := s.sessions[c.session].(status := CLOSED, endedAt := Some(now))])
    else if Commits(s, c) then Write(s, (c.session, c.student), c.status, c.via, c.similarity, now)
    else s
  }

  ghost function Next(sqrt: real -> real, threshold: real, w: World, step: Step): World {
    var s := w.state;
    match step
    case OpenStep(course, actor, now) => w.(state := Open(s, course, actor, now).0, count := w.count + 1)
    case CheckClose(caller, session, actor) =>
      Continue(w, caller, if Passes(s, session, actor) then Some(Closing(session, w.count)) else None)
    case CheckMark(caller, session, student, status, actor) =>
      Continue(w, caller, if Passes(s, session, actor) then
                            Some(Writing(session, student, status, MANUAL, None, w.count)) else None)
    case CheckIdentify(caller, session, image, actor) =>
      Continue(w, caller, if Passes(s, session, actor) && image.Face? then
                            Some(Searching(session, image.vector, w.count)) else None)
    case Search(caller) =>
      if caller !in w.pending || !w.pending[caller].Searching? then w.(count := w.count + 1)
      else Continue(w, caller, Found(sqrt, threshold, s, w.pending[caller]))
    case Commit(caller, now, commits) =>
      if caller !in w.pending || w.pending[caller].Searching? then w.(count := w.count + 1)
      else Continue(w.(state := if commits then Committed(s, w.pending[caller], now) else s), caller, None)
    case Change(professors, students, rosters, faces) =>
      w.(state := s.(professors := professors, students := students, rosters := rosters, faces := faces),
         count := w.count + 1)
  }

  lemma PendingAgain(pending: map<nat, Call>, caller: nat)
    requires caller !in pending
    ensures pending - {caller} == pending
    ensures forall c: Call {:trigger pending[caller := c]} :: pending[caller := c] - {caller} == pending
  {
    assert forall c: Call {:trigger pending[caller := c]} :: pending[caller := c] - {caller} == pending;
  }

  /** An atomic mark is its check followed at once by its transaction. */
  lemma MarkIsTwoSteps(sqrt: real -> real, threshold: real, w: World, caller: nat, session: nat, student: nat,
                       status: Status, actor: Actor, now: nat, commits: bool)
    requires caller !in w.pending
    ensures var read := Next(sqrt, threshold, w, CheckMark(caller, session, student, status, actor));
      Next(sqrt, threshold, read, Commit(caller, now, commits))
      == World(Mark(w.state, session, student, status, actor, now, commits).0, w.pending, w.count + 2)
  {
    PendingAgain(w.pending, caller);
    hide Write;
  }

  lemma CloseIsTwoSteps(sqrt: real -> real, threshold: real, w: World, caller: nat, session: nat, actor: Actor,
                        now: nat)
    requires caller !in w.pending
    ensures var read := Next(sqrt, threshold, w, CheckClose(caller, session, actor));
      Next(sqrt, threshold, read, Commit(caller, now, true))
      == World(Close(w.state, session, actor, now).0, w.pending, w.count + 2)
  {
    PendingAgain(w.pending, caller);
  }

  lemma IdentifyIsThreeSteps(sqrt: real -> real, threshold: real, w: World, caller: nat, session: nat,
                             image: Extraction, actor: Actor, now: nat, commits: bool)
    requires caller !in w.pending && Searchable(sqrt, w.state, session, image)
    ensures var read := Next(sqrt, threshold, w, CheckIdentify(caller, session, image, actor));
      var found := Next(sqrt, threshold, read, Search(caller));
      Next(sqrt, threshold, found, Commit(caller, now, commits))
      == World(Identify(sqrt, threshold, w.state, session, image, actor, now, commits).0, w.pending, w.count + 3)
  {
    PendingAgain(w.pending, caller);
    IdentifyIsSearchThenWrite(sqrt, threshold, w, session, image, actor, now, commits);
    hide Identify, Found, Committed, Searchable, Passes;
    if Passes(w.state, session, actor) && image.Face? {
      var c := Searching(session, image.vector, w.count);
      var read := Next(sqrt, threshold, w, CheckIdentify(caller, session, image, actor));
      assert read == World(w.state, w.pending[caller := c], w.count + 1);
      var next := Found(sqrt, threshold, w.state, c);
      assert next.Some? ==> w.pending[caller := c][caller := next.value] == w.pending[caller := next.value];
      var found := Next(sqrt, threshold, read, Search(caller));
      assert found.pending == if next.Some? then w.pending[caller := next.value] else w.pending;
      assert found.state == w.state && found.count == w.count + 2;
    }
  }

  lemma IdentifyIsSearchThenWrite(sqrt: real -> real, threshold: real, w: World, session: nat, image: Extraction,
                                  actor: Actor, now: nat, commits: bool)
    requires Searchable(sqrt, w.state, session, image)
    ensures Identify(sqrt, threshold, w.state, session, image, actor, now, commits).0 ==
      if Passes(w.state, session, actor) && image.Face? && commits then
        var next := Found(sqrt, threshold, w.state, Searching(session, image.vector, w.count));
        if next.Some? then Committed(w.state, next.value, now) else w.state
      else w.state
    ensures image.Face? ==>
      var next := Found(sqrt, threshold, w.state, Searching(session, image.vector, w.count));
      next.Some? ==> next.value.Writing?
  {
    hide SearchNearestInCourse, Write, SameDimensions;
  }

  /** The write a step commits, if any. */
  function WriteOf(w: World, step: Step): Option<Call> {
    if step.Commit? && step.commits && step.caller in w.pending && Commits(w.state, w.pending[step.caller])
    then Some(w.pending[step.caller]) else None
  }

  /** A step commits one write, or leaves records and log alone. */
  lemma StepWrites(sqrt: real -> real, threshold: real, w: World, step: Step)
    ensures var s, s', c := w.state, Next(sqrt, threshold, w, step).state, WriteOf(w, step);
      if c.Some? then
        s' == Write(s, (c.value.session, c.value.student), c.value.status, c.value.via, c.value.similarity, step.now)
      else s'.records == s.records && s'.events == s.events && s'.created == s.created
  {
    hide Found, Write, Passes;
  }

  const EMPTY := World(State(map[], {}, map[], [], [], map[], 0, []), map[], 0)

  /** The world after the first `n` steps of a run from empty tables. */
  ghost function Run(sqrt: real -> real, threshold: real, steps: seq<Step>, n: nat): World
    requires n <= |steps|
  {
    if n == 0 then EMPTY else Next(sqrt, threshold, Run(sqrt, threshold, steps, n - 1), steps[n - 1])
  }

  lemma WriteFolds(s: State, key: Key, status: Status, via: Method, similarity: Option<real>, now: nat)
    requires key.0 < |s.sessions| && Fold(s.events) == s.records
    ensures var s' := Write(s, key, status, via, similarity, now); Fold(s'.events) == s'.records
  {
    var s' := Write(s, key, status, via, similarity, now);
    assert s'.events[..|s.events|] == s.events;
  }

  /**
   * After every run, whatever the interleaving of checks, searches and transactions,
   * replaying the event log from nothing gives exactly the table: keys, record ids,
   * statuses, methods, similarities and capture times.
   */
  lemma {:induction false} LogDeterminesTable(sqrt: real -> real, threshold: real, steps: seq<Step>, n: nat)
    requires n <= |steps|
    ensures var s := Run(sqrt, threshold, steps, n).state; Fold(s.events) == s.records
  {
    if n > 0 {
      LogDeterminesTable(sqrt, threshold, steps, n - 1);
      var w, step := Run(sqrt, threshold, steps, n - 1), steps[n - 1];
      StepWrites(sqrt, threshold, w, step);
      hide Fold, Next, Write;
      if WriteOf(w, step).Some? {
        var c := WriteOf(w, step).value;
        WriteFolds(w.state, (c.session, c.student), c.status, c.via, c.similarity, step.now);
      }
    }
  }

  // ---- Invariants of every run -----------------------------------------------------------------

  /** A pending call is on a session that exists; a face it will record reached the threshold. */
  ghost predicate CallValid(threshold: real, w: World, c: Call) {
    && c.since < w.count && c.session < |w.state.sessions|
    && (c.Writing? && c.via == FACE ==> c.similarity.Some? && c.similarity.value >= threshold)
    && (c.Writing? && c.via == MANUAL ==> c.similarity.None?)
  }

  ghost predicate PendingValid(threshold: real, w: World) {
    forall caller | caller in w.pending :: CallValid(threshold, w, w.pending[caller])
  }

  /** What a step does to the sessions. */
  lemma SessionsStep(sqrt: real -> real, threshold: real, w: World, step: Step)
    ensures var s, s' := w.state.sessions, Next(sqrt, threshold, w, step).state.sessions;
      && |s'| >= |s|
      && (forall i | |s| <= i < |s'| :: s'[i].status == OPEN && s'[i].endedAt.None?)
      && (forall i | 0 <= i < |s| ::
            if step.Commit? && step.commits && step.caller in w.pending && w.pending[step.caller].Closing?
               && w.pending[step.caller].session == i
            then s'[i] == s[i].(status := CLOSED, endedAt := Some(step.now))
            else s'[i] == s[i])
  {
    hide Found, Passes, Upserted;
  }

  /** What a step does to the calls in flight. */
  lemma PendingStep(sqrt: real -> real, threshold: real, w: World, step: Step)
    ensures var w' := Next(sqrt, threshold, w, step);
      && w'.count == w.count + 1
      && forall caller | caller in w'.pending ::
           var c := w'.pending[caller];
           || (caller in w.pending && c == w.pending[caller])
           || (caller in w.pending && w.pending[caller].Searching? && c.Writing? && c.since == w.pending[caller].since
               && c.session == w.pending[caller].session
               && c.via == FACE && c.similarity.Some? && c.similarity.value >= threshold)
           || (c.since == w.count && c.session < |w.state.sessions| && w.state.sessions[c.session].status == OPEN
               && (c.Writing? ==> c.via == MANUAL && c.similarity.None?))
  {
    hide SearchNearestInCourse, Committed;
  }

  /**
   * In every reachable state, calls in flight included, a session is OPEN exactly when it
   * has no end time, so the service's check agrees with `isSessionOpen`; record ids are
   * unique; and every FACE record has a similarity that reaches the threshold.
   */
  lemma {:induction false} EveryRunKeepsInv(sqrt: real -> real, threshold: real, steps: seq<Step>, n: nat)
    requires n <= |steps|
    ensures var w := Run(sqrt, threshold, steps, n);
      && Inv(threshold, w.state) && PendingValid(threshold, w) && w.count == n
      && forall i | 0 <= i < |w.state.sessions| ::
           w.state.sessions[i].status == OPEN <==> IsSessionOpen(w.state.sessions[i])
  {
    if n > 0 {
      EveryRunKeepsInv(sqrt, threshold, steps, n - 1);
      StepKeepsInv(sqrt, threshold, Run(sqrt, threshold, steps, n - 1), steps[n - 1]);
      hide Next;
    }
  }

  lemma StepKeepsInv(sqrt: real -> real, threshold: real, w: World, step: Step)
    requires Inv(threshold, w.state) && PendingValid(threshold, w)
    ensures var w' := Next(sqrt, threshold, w, step);
      Inv(threshold, w'.state) && PendingValid(threshold, w') && w'.count == w.count + 1
  {
    StepWrites(sqrt, threshold, w, step);
    SessionsStep(sqrt, threshold, w, step);
    PendingStep(sqrt, threshold, w, step);
    hide Next;
  }

  // ---- Similarities -------------------------------------------------------------------------------

  /** The similarity of the key's last FACE event. */
  function LastFace(events: seq<Event>, key: Key): Option<real> {
    if events == [] then None
    else
      var last := events[|events| - 1];
      if last.key == key && last.via == FACE then last.similarity else LastFace(events[..|events| - 1], key)
  }

  /** Exactly the FACE events carry a similarity. */
  ghost predicate FacesCarrySimilarity(events: seq<Event>) {
    forall i | 0 <= i < |events| :: events[i].via == FACE <==> events[i].similarity.Some?
  }

  lemma {:induction false} FoldSimilarity(events: seq<Event>, key: Key)
    requires FacesCarrySimilarity(events) && key in Fold(events)
    ensures Fold(events)[key].similarity == LastFace(events, key)
  {
    var init, last := events[..|events| - 1], events[|events| - 1];
    if key in Fold(init) {
      FoldSimilarity(init, key);
    } else {
      NoFaceYet(init, key);
    }
  }

  lemma {:induction false} NoFaceYet(events: seq<Event>, key: Key)
    requires key !in Fold(events)
    ensures LastFace(events, key).None?
  {
    if events != [] {
      NoFaceYet(events[..|events| - 1], key);
    }
  }

  lemma {:induction false} FacesInEveryRun(sqrt: real -> real, threshold: real, steps: seq<Step>, n: nat)
    requires n <= |steps|
    ensures FacesCarrySimilarity(Run(sqrt, threshold, steps, n).state.events)
  {
    if n > 0 {
      FacesInEveryRun(sqrt, threshold, steps, n - 1);
      EveryRunKeepsInv(sqrt, threshold, steps, n - 1);
      StepWrites(sqrt, threshold, Run(sqrt, threshold, steps, n - 1), steps[n - 1]);
      hide Next, Inv;
    }
  }

  /**
   * After every run a record has a similarity if and only if some face was ever recognised
   * for it, and then it is that of the last recognition: marks by hand never touch it.
   */
  lemma SimilarityIsLastFace(sqrt: real -> real, threshold: real, steps: seq<Step>, n: nat, key: Key)
    requires n <= |steps| && key in Run(sqrt, threshold, steps, n).state.records
    ensures var s := Run(sqrt, threshold, steps, n).state;
      && s.records[key].similarity == LastFace(s.events, key)
      && (s.records[key].similarity.Some? <==>
            exists i | 0 <= i < |s.events| :: s.events[i].key == key && s.events[i].via == FACE)
  {
    hide Run;
    var s := Run(sqrt, threshold, steps, n).state;
    LogDeterminesTable(sqrt, threshold, steps, n);
    FacesInEveryRun(sqrt, threshold, steps, n);
    FoldSimilarity(s.events, key);
    LastFaceIff(s.events, key);
  }

  lemma {:induction false} LastFaceIff(events: seq<Event>, key: Key)
    requires FacesCarrySimilarity(events)
    ensures LastFace(events, key).Some? <==>
      exists i | 0 <= i < |events| :: events[i].key == key && events[i].via == FACE
  {
    if events != [] {
      var n := |events| - 1;
      LastFaceIff(events[..n], key);
      assert forall i | 0 <= i < n :: events[..n][i] == events[i];
    }
  }

  // ---- Closed sessions ------------------------------------------------------------------------------

  /** The session exists and is open after the first `n` steps. */
  ghost predicate OpenAt(sqrt: real -> real, threshold: real, steps: seq<Step>, n: nat, session: nat)
    requires n <= |steps|
  {
    var s := Run(sqrt, threshold, steps, n).state;
    session < |s.sessions| && s.sessions[session].status == OPEN
  }

  /** A call in flight after a step was in flight before, or has just found its session open. */
  lemma CallOrigin(sqrt: real -> real, threshold: real, w: World, step: Step, caller: nat)
    requires caller in Next(sqrt, threshold, w, step).pending
    ensures var c := Next(sqrt, threshold, w, step).pending[caller];
      || (caller in w.pending && w.pending[caller].since == c.since && w.pending[caller].session == c.session)
      || (c.since == w.count && c.session < |w.state.sessions| && w.state.sessions[c.session].status == OPEN)
  {
    PendingStep(sqrt, threshold, w, step);
    hide Next;
  }

  /** Every call in flight found its session open when it checked. */
  lemma {:induction false} CheckedWhenOpen(sqrt: real -> real, threshold: real, steps: seq<Step>, n: nat, caller: nat)
    requires n <= |steps| && caller in Run(sqrt, threshold, steps, n).pending
    ensures var c := Run(sqrt, threshold, steps, n).pending[caller];
      c.since < n && OpenAt(sqrt, threshold, steps, c.since, c.session)
  {
    hide Next, Inv, PendingValid;
    var w := Run(sqrt, threshold, steps, n - 1);
    CallOrigin(sqrt, threshold, w, steps[n - 1], caller);
    RunCounts(sqrt, threshold, steps, n - 1);
    if caller in w.pending {
      CheckedWhenOpen(sqrt, threshold, steps, n - 1, caller);
    }
  }

  lemma RunCounts(sqrt: real -> real, threshold: real, steps: seq<Step>, n: nat)
    requires n <= |steps|
    ensures Run(sqrt, threshold, steps, n).count == n
  {
    hide *;
    EveryRunKeepsInv(sqrt, threshold, steps, n);
  }

  /** The session exists and is closed after the first `n` steps. */
  ghost predicate ClosedAt(sqrt: real -> real, threshold: real, steps: seq<Step>, n: nat, session: nat)
    requires n <= |steps|
  {
    var s := Run(sqrt, threshold, steps, n).state;
    session < |s.sessions| && s.sessions[session].status == CLOSED
  }

  lemma {:induction false} ClosedStays(sqrt: real -> real, threshold: real, steps: seq<Step>, n: nat, m: nat,
                                       session: nat)
    requires n <= m <= |steps| && ClosedAt(sqrt, threshold, steps, n, session)
    ensures ClosedAt(sqrt, threshold, steps, m, session)
  {
    if n < m {
      ClosedStays(sqrt, threshold, steps, n, m - 1, session);
      SessionsStep(sqrt, threshold, Run(sqrt, threshold, steps, m - 1), steps[m - 1]);
      hide Next;
    }
  }

  /** Step `m` commits a call on the session whose check came before step `n`. */
  ghost predicate LateCommit(sqrt: real -> real, threshold: real, steps: seq<Step>, n: nat, m: nat, session: nat)
    requires m < |steps|
  {
    var w := Run(sqrt, threshold, steps, m);
    && steps[m].Commit? && steps[m].commits && steps[m].caller in w.pending
    && w.pending[steps[m].caller].session == session && w.pending[steps[m].caller].since < n
  }

  /** The call committed at this step writes a record that is not there already. */
  ghost predicate WritesOther(w: World, step: Step) {
    var c := WriteOf(w, step);
    c.Some? &&
      var key := (c.value.session, c.value.student);
      key !in w.state.records
      || w.state.records[key] != Upserted(w.state, key, c.value.status, c.value.via, c.value.similarity, step.now)
  }

  ghost predicate SameSessionRecords(s: State, s': State, session: nat) {
    forall student: nat ::
      && ((session, student) in s.records <==> (session, student) in s'.records)
      && ((session, student) in s.records ==> s.records[(session, student)] == s'.records[(session, student)])
  }

  lemma SameTransitively(a: State, b: State, c: State, session: nat)
    requires SameSessionRecords(a, b, session) && SameSessionRecords(b, c, session)
    ensures SameSessionRecords(a, c, session)
  {
  }

  /** A step changes a session's records exactly when it commits a differing one there. */
  lemma RecordsStep(sqrt: real -> real, threshold: real, w: World, step: Step, session: nat)
    ensures !SameSessionRecords(w.state, Next(sqrt, threshold, w, step).state, session)
      <==> WritesOther(w, step) && WriteOf(w, step).value.session == session
  {
    StepWrites(sqrt, threshold, w, step);
    hide Next, Upserted;
    var c := WriteOf(w, step);
    if c.Some? && c.value.session == session {
      assert (session, c.value.student) in Next(sqrt, threshold, w, step).state.records;
    }
  }

  /**
   * When a closed session still changes, exactly: a step after the session was closed
   * changes its records if and only if it commits a differing record for a call whose check
   * came before the close, and changes its row if and only if it commits another close
   * whose check did, with another time.
   */
  lemma ClosedSessionChangesIff(sqrt: real -> real, threshold: real, steps: seq<Step>, n: nat, m: nat, session: nat)
    requires n <= m < |steps| && ClosedAt(sqrt, threshold, steps, n, session)
    ensures var w, w' := Run(sqrt, threshold, steps, m), Run(sqrt, threshold, steps, m + 1);
      && (!SameSessionRecords(w.state, w'.state, session) <==>
            LateCommit(sqrt, threshold, steps, n, m, session) && WritesOther(w, steps[m]))
      && session < |w.state.sessions| && session < |w'.state.sessions|
      && (w'.state.sessions[session] != w.state.sessions[session] <==>
            && LateCommit(sqrt, threshold, steps, n, m, session) && w.pending[steps[m].caller].Closing?
            && w.state.sessions[session].endedAt != Some(steps[m].now))
  {
    var w, step := Run(sqrt, threshold, steps, m), steps[m];
    RecordsStep(sqrt, threshold, w, step, session);
    SessionsStep(sqrt, threshold, w, step);
    ClosedStays(sqrt, threshold, steps, n, m, session);
    ClosedStays(sqrt, threshold, steps, n, m + 1, session);
    if step.Commit? && step.caller in w.pending && w.pending[step.caller].session == session {
      CommitsAreLate(sqrt, threshold, steps, n, m, session);
    }
    hide Next, SameSessionRecords, WritesOther;
  }

  /** A call in flight on a closed session made its check before the close. */
  lemma CommitsAreLate(sqrt: real -> real, threshold: real, steps: seq<Step>, n: nat, m: nat, session: nat)
    requires n <= m < |steps| && ClosedAt(sqrt, threshold, steps, n, session)
    requires steps[m].Commit? && steps[m].caller in Run(sqrt, threshold, steps, m).pending
    requires Run(sqrt, threshold, steps, m).pending[steps[m].caller].session == session
    ensures Run(sqrt, threshold, steps, m).pending[steps[m].caller].since < n
  {
    CheckedWhenOpen(sqrt, threshold, steps, m, steps[m].caller);
    hide Next;
    var c := Run(sqrt, threshold, steps, m).pending[steps[m].caller];
    if c.since >= n {
      ClosedStays(sqrt, threshold, steps, n, c.since, session);
    }
  }

  /** No call on the session is between its check and its transaction. */
  ghost predicate NoneInFlight(w: World, session: nat) {
    forall caller | caller in w.pending :: w.pending[caller].session != session
  }

  lemma RunStep(sqrt: real -> real, threshold: real, steps: seq<Step>, n: nat)
    requires n < |steps|
    ensures Run(sqrt, threshold, steps, n + 1) == Next(sqrt, threshold, Run(sqrt, threshold, steps, n), steps[n])
  {
    hide Next;
  }

  lemma {:induction false} InFlightBefore(sqrt: real -> real, threshold: real, steps: seq<Step>, n: nat, m: nat,
                                          caller: nat)
    requires n <= m <= |steps| && caller in Run(sqrt, threshold, steps, m).pending
    requires Run(sqrt, threshold, steps, m).pending[caller].since < n
    ensures var before, after := Run(sqrt, threshold, steps, n).pending, Run(sqrt, threshold, steps, m).pending;
      caller in before && before[caller].session == after[caller].session
  {
    hide *;
    if n < m {
      RunStep(sqrt, threshold, steps, m - 1);
      CallOrigin(sqrt, threshold, Run(sqrt, threshold, steps, m - 1), steps[m - 1], caller);
      RunCounts(sqrt, threshold, steps, m - 1);
      InFlightBefore(sqrt, threshold, steps, n, m - 1, caller);
    }
  }

  /** The session and all its records are as they were. */
  ghost predicate SameSession(s: State, s': State, session: nat) {
    && session < |s.sessions| && session < |s'.sessions| && s'.sessions[session] == s.sessions[session]
    && SameSessionRecords(s, s', session)
  }

  lemma SameSessionTransitively(a: State, b: State, c: State, session: nat)
    requires SameSession(a, b, session) && SameSession(b, c, session)
    ensures SameSession(a, c, session)
  {
    SameTransitively(a, b, c, session);
  }

  lemma SameAsItself(sqrt: real -> real, threshold: real, steps: seq<Step>, n: nat, session: nat)
    requires n <= |steps| && ClosedAt(sqrt, threshold, steps, n, session)
    ensures SameSession(Run(sqrt, threshold, steps, n).state, Run(sqrt, threshold, steps, n).state, session)
  {
    hide Run;
  }

  lemma FrozenStep(sqrt: real -> real, threshold: real, steps: seq<Step>, n: nat, m: nat, session: nat)
    requires n <= m < |steps| && ClosedAt(sqrt, threshold, steps, n, session)
    requires NoneInFlight(Run(sqrt, threshold, steps, n), session)
    ensures SameSession(Run(sqrt, threshold, steps, m).state, Run(sqrt, threshold, steps, m + 1).state, session)
  {
    hide Run, SameSessionRecords, ClosedAt, WritesOther;
    ClosedSessionChangesIff(sqrt, threshold, steps, n, m, session);
    if LateCommit(sqrt, threshold, steps, n, m, session) {
      InFlightBefore(sqrt, threshold, steps, n, m, steps[m].caller);
    }
  }

  /** A session that is closed with no call on it in flight never changes again, nor does any of its records. */
  lemma {:induction false} ClosedSessionIsFrozen(sqrt: real -> real, threshold: real, steps: seq<Step>, n: nat, m: nat,
                                                 session: nat)
    requires n <= m <= |steps| && ClosedAt(sqrt, threshold, steps, n, session)
    requires NoneInFlight(Run(sqrt, threshold, steps, n), session)
    ensures SameSession(Run(sqrt, threshold, steps, n).state, Run(sqrt, threshold, steps, m).state, session)
  {
    hide *;
    if n == m {
      SameAsItself(sqrt, threshold, steps, n, session);
    } else {
      ClosedSessionIsFrozen(sqrt, threshold, steps, n, m - 1, session);
      FrozenStep(sqrt, threshold, steps, n, m - 1, session);
      SameSessionTransitively(Run(sqrt, threshold, steps, n).state, Run(sqrt, threshold, steps, m - 1).state,
                              Run(sqrt, threshold, steps, m).state, session);
    }
  }

  /** Two callers can both close a session: the second moves its end time. */
  lemma ClosedTwice(sqrt: real -> real, threshold: real, w: World, a: nat, b: nat, session: nat, actor: Actor,
                    first: nat, second: nat)
    requires a != b && Passes(w.state, session, actor)
    ensures var checked := Next(sqrt, threshold, Next(sqrt, threshold, w, CheckClose(a, session, actor)),
                                CheckClose(b, session, actor));
      var closed := Next(sqrt, threshold, checked, Commit(a, first, true));
      var again := Next(sqrt, threshold, closed, Commit(b, second, true));
      && closed.state.sessions[session].status == CLOSED && closed.state.sessions[session].endedAt == Some(first)
      && again.state.sessions[session].status == CLOSED && again.state.sessions[session].endedAt == Some(second)
  {
  }

  /** It does happen: a mark checks, another caller closes the session, and the mark commits. */
  lemma LateWriteAfterClose(sqrt: real -> real, threshold: real, w: World, mark: nat, close: nat, session: nat,
                            student: nat, status: Status, actor: Actor, now: nat)
    requires mark != close && Mark(w.state, session, student, status, actor, now, true).1.Ok?
    requires (session, student) in w.state.records ==> w.state.records[(session, student)].status != status
    ensures var checked := Next(sqrt, threshold, w, CheckMark(mark, session, student, status, actor));
      var closed := Next(sqrt, threshold, Next(sqrt, threshold, checked, CheckClose(close, session, actor)),
                         Commit(close, now, true));
      && closed.state.sessions[session].status == CLOSED
      && !SameSessionRecords(closed.state, Next(sqrt, threshold, closed, Commit(mark, now, true)).state, session)
  {
    var checked := Next(sqrt, threshold, w, CheckMark(mark, session, student, status, actor));
    var closed := Next(sqrt, threshold, Next(sqrt, threshold, checked, CheckClose(close, session, actor)),
                       Commit(close, now, true));
    var late := Next(sqrt, threshold, closed, Commit(mark, now, true));
    assert (session, student) in late.state.records && late.state.records[(session, student)].status == status;
  }

  // ---- The service ------------------------------------------------------------------

  /** Every mark and identification of the session fails and changes nothing. */
  ghost predicate Refuses(sqrt: real -> real, threshold: real, s: State, session: nat) {
    && (forall student, status, actor, now, commits ::
          var (s', r) := Mark(s, session, student, status, actor, now, commits); r.Err? && s' == s)
    && (forall image, actor, now, commits | Searchable(sqrt, s, session, image) ::
          var (s', r) := Identify(sqrt, threshold, s, session, image, actor, now, commits); r.Err? && s' == s)
  }

  lemma WriteKeepsInv(threshold: real, s: State, key: Key, status: Status, via: Method, similarity: Option<real>,
                      now: nat)
    requires Inv(threshold, s) && key.0 < |s.sessions|
    requires via == FACE ==> similarity.Some? && similarity.value >= threshold
    ensures Inv(threshold, Write(s, key, status, via, similarity, now))
  {
    var r := Upserted(s, key, status, via, similarity, now);
    assert r.id == (if key in s.records then s.records[key].id else s.created) && r.via == via;
    assert via == FACE ==> r.similarity == similarity;
    hide Upserted;
  }

  class AttendanceService {
    const sqrt: real -> real
    const threshold: real
    var state: State

    ghost predicate Valid()
      reads this
    {
      Inv(threshold, state)
    }

    constructor (sqrt: real -> real, threshold: real, state: State)
      requires Inv(threshold, state)
      ensures Valid() && this.sqrt == sqrt && this.threshold == threshold && this.state == state
    {
      this.sqrt, this.threshold, this.state := sqrt, threshold, state;
    }

    /** Adds an open session without records, or refuses and changes nothing. */
    method OpenSession(course: nat, actor: Actor, now: nat) returns (r: Result<Session, Error>)
      requires Valid()
      modifies this`state
      ensures Valid() && (state, r) == Open(old(state), course, actor, now)
      ensures r.Ok? ==>
        && state.sessions == old(state).sessions + [r.value] && IsSessionOpen(r.value)
        && (forall key | key in state.records :: key.0 != |old(state).sessions|)
      ensures state.(sessions := old(state).sessions) == old(state)
    {
      if course !in state.professors { return Err(NotFound); }
      if !actor.admin && state.professors[course] != actor.user { return Err(Forbidden); }
      var session := Session(course, OPEN, now, None);
      state := state.(sessions := state.sessions + [session]);
      return Ok(session);
    }

    /** Succeeds on an open session the actor may use, and then no mark or identification on it does. */
    method CloseSession(session: nat, actor: Actor, now: nat) returns (r: Result<Session, Error>)
      requires Valid()
      modifies this`state
      ensures Valid() && (state, r) == Close(old(state), session, actor, now)
      ensures r.Ok? <==> MayUse(old(state), session, actor) && IsSessionOpen(old(state).sessions[session])
      ensures r.Ok? ==> Refuses(sqrt, threshold, state, session)
      ensures state.(sessions := old(state).sessions) == old(state) && |state.sessions| == |old(state).sessions|
      ensures forall i | 0 <= i < |state.sessions| && (i != session || r.Err?) ::
        state.sessions[i] == old(state).sessions[i]
    {
      var denied := SessionForActor(state, session, actor);
      if denied.Some? { return Err(denied.value); }
      if state.sessions[session].status == CLOSED { return Err(Conflict); }
      var closed := state.sessions[session].(status := CLOSED, endedAt := Some(now));
      state := state.(sessions := state.sessions[session := closed]);
      return Ok(closed);
    }

    /** Upsert a record and append its event, in one transaction. */
    method UpsertAndRecord(key: Key, status: Status, via: Method, similarity: Option<real>, now: nat)
      returns (r: Record)
      requires Valid() && key.0 < |state.sessions|
      requires via == FACE ==> similarity.Some? && similarity.value >= threshold
      modifies this`state
      ensures Valid() && state == Write(old(state), key, status, via, similarity, now) && r == state.records[key]
    {
      hide Inv;
      WriteKeepsInv(threshold, state, key, status, via, similarity, now);
      if key in state.records {
        r := state.records[key];
        r := r.(status := status, via := via);
        if similarity.Some? { r := r.(similarity := similarity); }
      } else {
        r := Record(state.created, status, via, similarity, now);
        state := state.(created := state.created + 1);
      }
      state := state.(records := state.records[key := r]);
      var course := state.sessions[key.0].course;
      var event := Recorded(key, course, r.id, r.status, r.via, similarity, r.capturedAt);
      state := state.(events := state.events + [event]);
    }

    method MarkAttendance(session: nat, student: nat, status: Status, actor: Actor, now: nat, commits: bool)
      returns (r: Result<Record, Error>)
      requires Valid()
      modifies this`state
      ensures Valid() && (state, r) == Mark(old(state), session, student, status, actor, now, commits)
    {
      var denied := SessionForActor(state, session, actor);
      if denied.Some? { return Err(denied.value); }
      if state.sessions[session].status != OPEN { return Err(Conflict); }
      if (session, student) !in state.records && student !in state.students { return Err(StudentNotFound); }
      if !commits { return Err(DatabaseError); }
      var record := UpsertAndRecord((session, student), status, MANUAL, None, now);
      return Ok(record);
    }

    method IdentifyAndRecord(session: nat, image: Extraction, actor: Actor, now: nat, commits: bool)
      returns (r: Result<Identified, Error>)
      requires Valid() && Searchable(sqrt, state, session, image)
      modifies this`state
      ensures Valid() && (state, r) == Identify(sqrt, threshold, old(state), session, image, actor, now, commits)
    {
      var denied := SessionForActor(state, session, actor);
      if denied.Some? { return Err(denied.value); }
      if state.sessions[session].status != OPEN { return Err(Conflict); }
      if image.Unavailable? { return Err(AiUnavailable); }
      if image.Fault? { return Err(AiError); }
      if image.NoFace? { return Err(NoFaceDetected); }
      var roster := RosterOf(state, state.sessions[session].course);
      if !SameDimensions(state.faces, roster, |image.vector|) { return Err(DatabaseError); }
      var found := SearchNearestInCourse(sqrt, state.faces, roster, image.vector, 1);
      if found == [] { return Ok(Identified(false, None, None, None)); }
      var best := found[0];
      if best.similarity < threshold { return Ok(Identified(false, Some(best.similarity), None, None)); }
      if !commits { return Err(DatabaseError); }
      var record := UpsertAndRecord((session, best.student), PRESENT, FACE, Some(best.similarity), now);
      return Ok(Identified(true, Some(best.similarity), Some(best.student), Some(record)));
    }
  }
}
