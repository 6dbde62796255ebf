/**
 The idempotency protocol (apps/api/src/common/idempotency.service.ts) as a state machine: any number of
 requests run `run` at the same time over one table with a unique key, together with the purge. Every
 database call is one atomic step; between two steps of a request any other step may happen.
 */
module Idempotency {
  import opened Wrappers

  const RETENTION_MS := 24 * 3600 * 1000

  datatype Scope = Scope(organizationId: string, userId: string, operation: string, key: string)

  /** What the protected work returns. */
  datatype Result = Result(status: int, body: string, resourceId: Option<string>)

  datatype RecordStatus = EnCours | Termine

  datatype Record = Record(
    scope: Scope, requestHash: string, status: RecordStatus,
    responseStatus: Option<int>, responseBody: Option<string>, resourceId: Option<string>, expiresAt: int)

  datatype Outcome =
    | Fresh(status: int, body: string)
    | Replayed(status: int, replayedBody: Option<string>)
    | BodyDiffers
    | InProgress
    | Failed

  /** Where a request stands in the code of `run`. */
  datatype Pc =
    | Ready
    | Creating(now: int)
    | Conflicted
    | Working
    | Completing(result: Result)
    | Failing
    | Done(outcome: Outcome)

  /** `record` is the row the request created; `worked` remembers that its work returned. */
  datatype Request = Request(scope: Scope, hash: string, pc: Pc, record: Option<nat>, worked: bool)

  /** Who created a row, when that request read the clock, when the insertion ran and when the row expires. */
  datatype Creation = Creation(owner: nat, begun: int, at: int, expiresAt: int)

  /** `created`, `purged` and `updateFailed` are history: no step reads them. */
  datatype State = State(
    clock: int, table: map<nat, Record>, nextId: nat, requests: map<nat, Request>,
    created: map<nat, Creation>, purged: bool, updateFailed: bool)

  datatype Step =
    | Tick(clock: int)
    | Begin(r: nat)
    | Create(r: nat)
    | CreateFails(r: nat)
    | Find(r: nat)
    | WorkReturns(r: nat, result: Result)
    | WorkThrows(r: nat)
    | Update(r: nat)
    | UpdateFails(r: nat)
    | Delete(r: nat)
    | DeleteFails(r: nat)
    | Purge(now: int)

  // ---------------------------------------------------------------- the steps

  predicate Holds(table: map<nat, Record>, scope: Scope, id: nat) { id in table && table[id].scope == scope }

  ghost predicate KeyTaken(table: map<nat, Record>, scope: Scope) { exists id :: Holds(table, scope, id) }

  predicate At(s: State, r: nat, pc: Pc) { r in s.requests && s.requests[r].pc == pc }

  ghost predicate Enabled(s: State, step: Step) {
    match step
    case Tick(clock) => clock >= s.clock
    case Begin(r) => At(s, r, Ready)
    case Create(r) => r in s.requests && s.requests[r].pc.Creating?
    case CreateFails(r) => r in s.requests && s.requests[r].pc.Creating?
    case Find(r) => At(s, r, Conflicted)
    case WorkReturns(r, _) => At(s, r, Working)
    case WorkThrows(r) => At(s, r, Working)
    case Update(r) => r in s.requests && s.requests[r].pc.Completing? && s.requests[r].record.Some?
    case UpdateFails(r) => r in s.requests && s.requests[r].pc.Completing?
    case Delete(r) => At(s, r, Failing) && s.requests[r].record.Some?
    case DeleteFails(r) => At(s, r, Failing)
    case Purge(now) => now <= s.clock
  }

  function Move(s: State, r: nat, pc: Pc): State
    requires r in s.requests
  {
    s.(requests := s.requests[r := s.requests[r].(pc := pc)])
  }

  /** What `findUnique` finds decides the answer of a request that met a conflict. */
  function Answer(existing: Record, hash: string): Outcome {
    if existing.requestHash != hash then BodyDiffers
    else if existing.status == EnCours then InProgress
    else Replayed(if existing.responseStatus.Some? then existing.responseStatus.value else 200, existing.responseBody)
  }

  function Completed(row: Record, result: Result): Record {
    row.(status := Termine, responseStatus := Some(result.status), responseBody := Some(result.body),
      resourceId := result.resourceId)
  }

  /** `create`: refused by the unique key, or a new row in progress. */
  ghost function Insert(s: State, r: nat): State
    requires r in s.requests && s.requests[r].pc.Creating?
  {
    var q := s.requests[r];
    if KeyTaken(s.table, q.scope) then Move(s, r, Conflicted)
    else
      var expiresAt := q.pc.now + RETENTION_MS;
      s.(table := s.table[s.nextId := Record(q.scope, q.hash, EnCours, None, None, None, expiresAt)],
         nextId := s.nextId + 1,
         requests := s.requests[r := q.(pc := Working, record := Some(s.nextId))],
         created := s.created[s.nextId := Creation(r, q.pc.now, s.clock, expiresAt)])
  }

  /** `update` by identifier: a row that is gone makes the call fail. */
  function Complete(s: State, r: nat): State
    requires r in s.requests && s.requests[r].pc.Completing? && s.requests[r].record.Some?
  {
    var id, result := s.requests[r].record.value, s.requests[r].pc.result;
    if id in s.table then
      Move(s, r, Done(Fresh(result.status, result.body))).(table := s.table[id := Completed(s.table[id], result)])
    else
      Move(s, r, Failing)
  }

  ghost function Next(s: State, step: Step): State
    requires Enabled(s, step)
  {
    match step
    case Tick(clock) => s.(clock := clock)
    case Begin(r) => Move(s, r, Creating(s.clock))
    case Create(r) => Insert(s, r)
    case CreateFails(r) => Move(s, r, Done(Failed))
    case Find(r) =>
      (var q := s.requests[r];
       if id :| Holds(s.table, q.scope, id) then Move(s, r, Done(Answer(s.table[id], q.hash)))
       else Move(s, r, Done(Failed)))
    case WorkReturns(r, result) =>
      s.(requests := s.requests[r := s.requests[r].(pc := Completing(result), worked := true)])
    case WorkThrows(r) => Move(s, r, Failing)
    case Update(r) => Complete(s, r)
    case UpdateFails(r) => Move(s, r, Failing).(updateFailed := true)
    case Delete(r) => Move(s, r, Done(Failed)).(table := s.table - {s.requests[r].record.value})
    case DeleteFails(r) => Move(s, r, Done(Failed))
    case Purge(now) =>
      s.(table := map id | id in s.table && s.table[id].expiresAt >= now :: s.table[id], purged := true)
  }

  ghost predicate Init(s: State) {
    && s.table == map[] && s.nextId == 0 && s.created == map[] && !s.purged && !s.updateFailed
    && forall r :: r in s.requests ==>
      s.requests[r].pc == Ready && s.requests[r].record == None && !s.requests[r].worked
  }

  /** The steps lead from s to t. */
  ghost predicate Runs(s: State, steps: seq<Step>, t: State)
    decreases |steps|
  {
    if |steps| == 0 then s == t
    else Enabled(s, steps[0]) && Runs(Next(s, steps[0]), steps[1..], t)
  }

  // ---------------------------------------------------------------- the invariant

  /** The work of the request has not been given up: it runs, it has returned, or its result is recorded. */
  predicate Live(q: Request) { q.pc.Working? || q.pc.Completing? || (q.pc.Done? && q.pc.outcome.Fresh?) }

  ghost predicate KeysUnique(s: State) {
    forall id, id' :: id in s.table && id' in s.table && s.table[id].scope == s.table[id'].scope ==> id == id'
  }

  ghost predicate IdsKnown(s: State) {
    && (forall id :: id in s.table ==> id in s.created)
    && (forall id :: id in s.created ==> id < s.nextId && s.created[id].expiresAt == s.created[id].begun + RETENTION_MS)
    && (forall id :: id in s.created ==>
      s.created[id].owner in s.requests && s.requests[s.created[id].owner].record == Some(id))
  }

  ghost predicate RecordsOwned(s: State) {
    forall r :: r in s.requests && s.requests[r].record.Some? ==>
      var id := s.requests[r].record.value;
      id in s.created && s.created[id].owner == r
  }

  predicate HasRecord(q: Request) {
    && (Live(q) || q.pc.Failing? ==> q.record.Some?)
    && (q.pc.Ready? || q.pc.Creating? || q.pc.Conflicted? ==> q.record.None?)
    && (q.pc.Done? && !q.pc.outcome.Fresh? && !q.pc.outcome.Failed? ==> q.record.None?)
  }

  predicate RowMatches(row: Record, q: Request, c: Creation) {
    && row.scope == q.scope && row.requestHash == q.hash && row.expiresAt == c.expiresAt
    && (row.status == EnCours ==> !(q.pc.Done? && q.pc.outcome.Fresh?))
    && (row.status == Termine ==>
      q.pc.Done? && q.pc.outcome.Fresh? && row.responseStatus == Some(q.pc.outcome.status) &&
        row.responseBody == Some(q.pc.outcome.body))
  }

  ghost predicate RowsMatch(s: State)
    requires IdsKnown(s)
  {
    forall id :: id in s.table ==> RowMatches(s.table[id], s.requests[s.created[id].owner], s.created[id])
  }

  /** The row of a live request is there until it expires. */
  ghost predicate LiveKept(s: State)
    requires RecordsOwned(s)
  {
    forall r :: r in s.requests && Live(s.requests[r]) && s.requests[r].record.Some? ==>
      var id := s.requests[r].record.value;
      id in s.table || (s.purged && s.created[id].expiresAt < s.clock)
  }

  /** Both live, on one key, q's row created first. */
  predicate LivePair(q: Request, q': Request) {
    && Live(q) && Live(q') && q.scope == q'.scope
    && q.record.Some? && q'.record.Some? && q.record.value < q'.record.value
  }

  /** Of two live requests with one key, the later was created after the row of the earlier had expired. */
  ghost predicate LiveApart(s: State)
    requires RecordsOwned(s)
  {
    forall r, r' :: r in s.requests && r' in s.requests && LivePair(s.requests[r], s.requests[r'])
      ==> s.purged && s.created[s.requests[r].record.value].expiresAt < s.created[s.requests[r'].record.value].at
  }

  /** w's recorded result is what r replays. */
  predicate IsSourceOf(w: Request, q: Request) {
    && w.pc.Done? && w.pc.outcome.Fresh? && w.worked && w.scope == q.scope && w.hash == q.hash
    && q.pc.Done? && q.pc.outcome == Replayed(w.pc.outcome.status, Some(w.pc.outcome.body))
  }

  ghost predicate ReplaysFounded(s: State) {
    forall r :: r in s.requests && s.requests[r].pc.Done? && s.requests[r].pc.outcome.Replayed? ==>
      exists w :: w in s.requests && IsSourceOf(s.requests[w], s.requests[r])
  }

  predicate RequestSound(q: Request, updateFailed: bool, purged: bool) {
    && HasRecord(q)
    && (q.pc.Completing? || (q.pc.Done? && q.pc.outcome.Fresh?) ==> q.worked)
    && (q.worked ==> q.pc.Completing? || q.pc.Failing? || q.pc.Done?)
    && (q.worked && !updateFailed && !purged ==> Live(q))
  }

  ghost predicate RequestsSound(s: State) {
    forall r :: r in s.requests ==> RequestSound(s.requests[r], s.updateFailed, s.purged)
  }

  ghost predicate Structure(s: State) { KeysUnique(s) && IdsKnown(s) && RecordsOwned(s) && RowsMatch(s) }

  ghost predicate Inv(s: State) {
    Structure(s) && RequestsSound(s) && LiveKept(s) && LiveApart(s) && ReplaysFounded(s)
  }

  lemma {:induction false} InvInit(s: State)
    requires Init(s)
    ensures Inv(s)
  {
  }

  // ---------------------------------------------------------------- steps that leave the table alone

  /** Only the place of r in the code changes. */
  ghost predicate OnlyMoves(s: State, t: State, r: nat) {
    && r in s.requests && r in t.requests
    && t == s.(requests := s.requests[r := t.requests[r]])
    && t.requests[r].scope == s.requests[r].scope && t.requests[r].hash == s.requests[r].hash
    && t.requests[r].record == s.requests[r].record
  }

  predicate IsFresh(q: Request) { q.pc.Done? && q.pc.outcome.Fresh? }

  predicate IsReplay(q: Request) { q.pc.Done? && q.pc.outcome.Replayed? }

  lemma {:induction false} MoveKeepsStructure(s: State, t: State, r: nat)
    requires Structure(s) && OnlyMoves(s, t, r)
    requires !IsFresh(s.requests[r]) && !IsFresh(t.requests[r])
    ensures Structure(t)
  {
    assert IdsKnown(t);
    forall id | id in t.table ensures RowMatches(t.table[id], t.requests[t.created[id].owner], t.created[id]) {
      assert RowMatches(s.table[id], s.requests[s.created[id].owner], s.created[id]);
    }
  }

  lemma {:induction false} MoveKeepsLive(s: State, t: State, r: nat)
    requires RecordsOwned(s) && RecordsOwned(t) && LiveKept(s) && LiveApart(s) && OnlyMoves(s, t, r)
    requires Live(t.requests[r]) ==> Live(s.requests[r])
    ensures LiveKept(t) && LiveApart(t)
  {
    forall x, y | x in t.requests && y in t.requests && LivePair(t.requests[x], t.requests[y])
      ensures t.purged && t.created[t.requests[x].record.value].expiresAt < t.created[t.requests[y].record.value].at
    {
      assert LivePair(s.requests[x], s.requests[y]);
    }
  }

  /** Replays stay founded while recorded results stay. */
  lemma {:induction false} ReplaysStay(s: State, t: State, r: nat)
    requires ReplaysFounded(s) && r in s.requests && r in t.requests
    requires t.requests == s.requests[r := t.requests[r]]
    requires !IsFresh(s.requests[r])
    requires IsReplay(t.requests[r]) ==> exists w ::
      w in s.requests && w != r && IsSourceOf(s.requests[w], t.requests[r])
    ensures ReplaysFounded(t)
  {
    forall x | x in t.requests && IsReplay(t.requests[x])
      ensures exists w :: w in t.requests && IsSourceOf(t.requests[w], t.requests[x])
    {
      if x == r {
        var w :| w in s.requests && w != r && IsSourceOf(s.requests[w], t.requests[r]);
        assert w in t.requests;
      } else {
        var w :| w in s.requests && IsSourceOf(s.requests[w], s.requests[x]);
        assert w in t.requests;
      }
    }
  }

  /** Only r moves, to a place that is neither a recorded result nor a replay. */
  ghost predicate PlainMove(s: State, t: State, r: nat) {
    && OnlyMoves(s, t, r)
    && !IsFresh(s.requests[r]) && !IsFresh(t.requests[r]) && !IsReplay(t.requests[r])
    && RequestSound(t.requests[r], s.updateFailed, s.purged)
    && (Live(t.requests[r]) ==> Live(s.requests[r]))
  }

  lemma {:induction false} InvMove(s: State, t: State, r: nat)
    requires Inv(s) && PlainMove(s, t, r)
    ensures Inv(t)
  {
    MoveKeepsStructure(s, t, r);
    MoveKeepsLive(s, t, r);
    ReplaysStay(s, t, r);
  }

  lemma {:induction false} RequestsStay(s: State, t: State, r: nat)
    requires RequestsSound(s) && r in s.requests && r in t.requests
    requires t.requests == s.requests[r := t.requests[r]]
    requires t.updateFailed == s.updateFailed && t.purged == s.purged
    requires RequestSound(t.requests[r], t.updateFailed, t.purged)
    ensures RequestsSound(t)
  {
    forall x | x in t.requests ensures RequestSound(t.requests[x], t.updateFailed, t.purged) {
      assert x != r ==> RequestSound(s.requests[x], s.updateFailed, s.purged);
    }
  }

  lemma {:induction false} InvFind(s: State, r: nat, t: State, answer: Outcome)
    requires Inv(s) && At(s, r, Conflicted)
    requires t == Move(s, r, Done(answer)) && !answer.Fresh?
    requires answer.Replayed? ==> exists w :: w in s.requests && w != r && IsSourceOf(s.requests[w], t.requests[r])
    ensures Inv(t)
  {
    assert RequestSound(s.requests[r], s.updateFailed, s.purged);
    MoveKeepsStructure(s, t, r);
    MoveKeepsLive(s, t, r);
    RequestsStay(s, t, r);
    ReplaysStay(s, t, r);
  }

  lemma {:induction false} FindsRow(s: State, r: nat) returns (id: nat)
    requires At(s, r, Conflicted) && KeyTaken(s.table, s.requests[r].scope)
    ensures Holds(s.table, s.requests[r].scope, id)
    ensures Next(s, Find(r)) == Move(s, r, Done(Answer(s.table[id], s.requests[r].hash)))
  {
    id :| Holds(s.table, s.requests[r].scope, id) &&
      Next(s, Find(r)) == Move(s, r, Done(Answer(s.table[id], s.requests[r].hash)));
  }

  /** The answer of `findUnique`. */
  lemma {:induction false} FindAnswers(s: State, r: nat) returns (answer: Outcome)
    requires Inv(s) && At(s, r, Conflicted)
    ensures Next(s, Find(r)) == Move(s, r, Done(answer))
    ensures KeyTaken(s.table, s.requests[r].scope) <==> !answer.Failed?
    ensures forall id :: Holds(s.table, s.requests[r].scope, id) ==> answer == Answer(s.table[id], s.requests[r].hash)
    ensures !answer.Fresh?
  {
    var scope := s.requests[r].scope;
    if KeyTaken(s.table, scope) {
      var id := FindsRow(s, r);
      assert forall other :: Holds(s.table, scope, other) ==> other == id;
      answer := Answer(s.table[id], s.requests[r].hash);
    } else {
      answer := Failed;
    }
  }

  /** A conflicting request that replays does so from the owner of the row it found. */
  lemma {:induction false} FindReplaysOwner(s: State, r: nat, id: nat)
    requires Inv(s) && At(s, r, Conflicted) && Holds(s.table, s.requests[r].scope, id)
    requires Answer(s.table[id], s.requests[r].hash).Replayed?
    ensures var w := s.created[id].owner;
      && w in s.requests && w != r
      && IsSourceOf(s.requests[w], s.requests[r].(pc := Done(Answer(s.table[id], s.requests[r].hash))))
  {
    var w := s.created[id].owner;
    assert RowMatches(s.table[id], s.requests[w], s.created[id]);
    assert RequestSound(s.requests[w], s.updateFailed, s.purged);
  }

  lemma {:induction false} InvFindStep(s: State, r: nat)
    requires Inv(s) && At(s, r, Conflicted)
    ensures Inv(Next(s, Find(r)))
  {
    var answer := FindAnswers(s, r);
    if answer.Replayed? {
      var id :| Holds(s.table, s.requests[r].scope, id);
      FindReplaysOwner(s, r, id);
    }
    InvFind(s, r, Move(s, r, Done(answer)), answer);
  }

  // ---------------------------------------------------------------- steps that change the table

  lemma {:induction false} InsertKeepsStructure(s: State, r: nat)
    requires Structure(s) && r in s.requests && s.requests[r].pc.Creating? && s.requests[r].record.None?
    requires !KeyTaken(s.table, s.requests[r].scope)
    ensures Structure(Insert(s, r))
  {
    var q, t := s.requests[r], Insert(s, r);
    forall id | id in s.table ensures s.table[id].scope != q.scope {
      assert !Holds(s.table, q.scope, id);
    }
    assert KeysUnique(t);
    assert IdsKnown(t) && RecordsOwned(t);
    forall id | id in t.table ensures RowMatches(t.table[id], t.requests[t.created[id].owner], t.created[id]) {
      if id != s.nextId {
        assert RowMatches(s.table[id], s.requests[s.created[id].owner], s.created[id]);
      }
    }
  }

  /** When no row holds the key, a request with that key has lost its row. */
  lemma {:induction false} FreeKeyHasNoRow(s: State, scope: Scope, x: nat)
    requires IdsKnown(s) && RecordsOwned(s) && RowsMatch(s) && !KeyTaken(s.table, scope)
    requires x in s.requests && s.requests[x].scope == scope && s.requests[x].record.Some?
    ensures s.requests[x].record.value !in s.table
  {
    var id := s.requests[x].record.value;
    assert id in s.table ==> RowMatches(s.table[id], s.requests[s.created[id].owner], s.created[id]);
    assert id in s.table ==> Holds(s.table, scope, id);
  }

  lemma {:induction false} InsertKeepsLive(s: State, r: nat)
    requires Inv(s) && r in s.requests && s.requests[r].pc.Creating?
    requires !KeyTaken(s.table, s.requests[r].scope) && RecordsOwned(Insert(s, r))
    ensures LiveKept(Insert(s, r)) && LiveApart(Insert(s, r))
  {
    var q, t := s.requests[r], Insert(s, r);
    forall x, y | x in t.requests && y in t.requests && LivePair(t.requests[x], t.requests[y])
      ensures t.purged && t.created[t.requests[x].record.value].expiresAt < t.created[t.requests[y].record.value].at
    {
      var id := t.requests[x].record.value;
      assert id < s.nextId by {
        assert t.requests[y].record.value in t.created;
      }
      assert x != r;
      if y == r {
        FreeKeyHasNoRow(s, q.scope, x);
      } else {
        assert LivePair(s.requests[x], s.requests[y]);
      }
    }
  }

  lemma {:induction false} InsertKeepsRest(s: State, r: nat)
    requires RequestsSound(s) && ReplaysFounded(s) && r in s.requests && s.requests[r].pc.Creating?
    requires !KeyTaken(s.table, s.requests[r].scope)
    ensures RequestsSound(Insert(s, r)) && ReplaysFounded(Insert(s, r))
  {
    assert RequestSound(s.requests[r], s.updateFailed, s.purged);
    RequestsStay(s, Insert(s, r), r);
    ReplaysStay(s, Insert(s, r), r);
  }

  lemma {:induction false} InvInsert(s: State, r: nat)
    requires Inv(s) && r in s.requests && s.requests[r].pc.Creating?
    ensures Inv(Insert(s, r))
  {
    assert RequestSound(s.requests[r], s.updateFailed, s.purged);
    if KeyTaken(s.table, s.requests[r].scope) {
      InvMove(s, Insert(s, r), r);
    } else {
      InsertKeepsStructure(s, r);
      InsertKeepsLive(s, r);
      InsertKeepsRest(s, r);
    }
  }

  lemma {:induction false} CompletedRowsMatch(s: State, r: nat, id: nat)
    requires Structure(s) && Enabled(s, Update(r)) && s.requests[r].record.value in s.table && id in s.table
    ensures id in s.created && s.created[id].owner in Complete(s, r).requests && id in Complete(s, r).table
    ensures RowMatches(Complete(s, r).table[id], Complete(s, r).requests[s.created[id].owner], s.created[id])
  {
    assert RowMatches(s.table[id], s.requests[s.created[id].owner], s.created[id]);
  }

  lemma {:induction false} CompleteKeepsKeys(s: State, r: nat)
    requires KeysUnique(s) && Enabled(s, Update(r)) && s.requests[r].record.value in s.table
    ensures KeysUnique(Complete(s, r))
  {
    var t := Complete(s, r);
    assert forall id :: id in t.table ==> id in s.table && t.table[id].scope == s.table[id].scope;
  }

  lemma {:induction false} CompleteKeepsOwners(s: State, r: nat)
    requires IdsKnown(s) && RecordsOwned(s) && Enabled(s, Update(r)) && s.requests[r].record.value in s.table
    ensures IdsKnown(Complete(s, r)) && RecordsOwned(Complete(s, r))
  {
    var t := Complete(s, r);
    assert t.created == s.created && t.table.Keys == s.table.Keys && t.requests.Keys == s.requests.Keys;
    assert forall x :: x in s.requests ==> t.requests[x].record == s.requests[x].record;
  }

  lemma {:induction false} CompleteKeepsStructure(s: State, r: nat)
    requires Structure(s) && Enabled(s, Update(r)) && s.requests[r].record.value in s.table
    ensures Structure(Complete(s, r))
  {
    CompleteKeepsKeys(s, r);
    CompleteKeepsOwners(s, r);
    var t := Complete(s, r);
    forall id | id in t.table ensures RowMatches(t.table[id], t.requests[t.created[id].owner], t.created[id]) {
      CompletedRowsMatch(s, r, id);
    }
  }

  lemma {:induction false} CompleteKeepsLive(s: State, r: nat)
    requires RecordsOwned(s) && LiveKept(s) && LiveApart(s)
    requires Enabled(s, Update(r)) && s.requests[r].record.value in s.table
    ensures RecordsOwned(Complete(s, r)) && LiveKept(Complete(s, r)) && LiveApart(Complete(s, r))
  {
    var t := Complete(s, r);
    assert t.table.Keys == s.table.Keys;
    MoveKeepsLive(s, s.(requests := t.requests), r);
  }

  lemma {:induction false} CompleteKeepsRest(s: State, r: nat)
    requires RequestsSound(s) && ReplaysFounded(s)
    requires Enabled(s, Update(r)) && s.requests[r].record.value in s.table
    ensures RequestsSound(Complete(s, r)) && ReplaysFounded(Complete(s, r))
  {
    assert RequestSound(s.requests[r], s.updateFailed, s.purged);
    RequestsStay(s, Complete(s, r), r);
    ReplaysStay(s, Complete(s, r), r);
  }

  lemma {:induction false} InvComplete(s: State, r: nat)
    requires Inv(s) && Enabled(s, Update(r))
    ensures Inv(Complete(s, r))
  {
    assert RequestSound(s.requests[r], s.updateFailed, s.purged);
    if s.requests[r].record.value in s.table {
      CompleteKeepsStructure(s, r);
      CompleteKeepsLive(s, r);
      CompleteKeepsRest(s, r);
    } else {
      assert s.purged;
      InvMove(s, Complete(s, r), r);
    }
  }

  /** Rows may go away when their owner has given up or they have expired and this is remembered. */
  lemma {:induction false} InvRemove(s: State, t: State)
    requires Inv(s)
    requires t == s.(table := t.table, purged := t.purged) && (s.purged ==> t.purged)
    requires forall id :: id in t.table ==> id in s.table && t.table[id] == s.table[id]
    requires forall id :: id in s.table && id !in t.table ==>
      !Live(s.requests[s.created[id].owner]) || (t.purged && s.created[id].expiresAt < s.clock)
    ensures Inv(t)
  {
    assert Structure(t);
    assert RequestsSound(t) by {
      forall r | r in t.requests ensures RequestSound(t.requests[r], t.updateFailed, t.purged) {
        assert RequestSound(s.requests[r], s.updateFailed, s.purged);
      }
    }
    assert ReplaysFounded(t);
  }

  lemma {:induction false} InvGiveUp(s: State, r: nat)
    requires Inv(s) && At(s, r, Failing)
    ensures Inv(Move(s, r, Done(Failed)))
  {
    assert RequestSound(s.requests[r], s.updateFailed, s.purged);
    InvMove(s, Move(s, r, Done(Failed)), r);
  }

  lemma {:induction false} InvRemoveOne(s: State, id: nat)
    requires Inv(s) && id in s.created && !Live(s.requests[s.created[id].owner])
    ensures Inv(s.(table := s.table - {id}))
  {
    InvRemove(s, s.(table := s.table - {id}));
  }

  lemma {:induction false} InvDelete(s: State, r: nat)
    requires Inv(s) && Enabled(s, Delete(r))
    ensures Inv(Next(s, Delete(r)))
  {
    InvGiveUp(s, r);
    InvRemoveOne(Move(s, r, Done(Failed)), s.requests[r].record.value);
  }

  lemma {:induction false} InvPurge(s: State, now: int)
    requires Inv(s) && now <= s.clock
    ensures Inv(Next(s, Purge(now)))
  {
    forall id | id in s.table ensures s.table[id].expiresAt == s.created[id].expiresAt {
      assert RowMatches(s.table[id], s.requests[s.created[id].owner], s.created[id]);
    }
    InvRemove(s, Next(s, Purge(now)));
  }

  lemma {:induction false} UpdateFailsMoves(s: State, r: nat)
    requires RequestsSound(s) && Enabled(s, UpdateFails(r))
    ensures PlainMove(s.(updateFailed := true), Next(s, UpdateFails(r)), r)
  {
    assert RequestSound(s.requests[r], s.updateFailed, s.purged);
  }

  lemma {:induction false} InvUpdateFails(s: State, r: nat)
    requires Inv(s) && Enabled(s, UpdateFails(r))
    ensures Inv(Next(s, UpdateFails(r)))
  {
    var u := s.(updateFailed := true);
    assert RequestsSound(u) by {
      forall x | x in u.requests ensures RequestSound(u.requests[x], u.updateFailed, u.purged) {
        assert RequestSound(s.requests[x], s.updateFailed, s.purged);
      }
    }
    assert ReplaysFounded(u);
    UpdateFailsMoves(s, r);
    InvMove(u, Next(s, UpdateFails(r)), r);
  }

  lemma {:induction false} InvTick(s: State, clock: int)
    requires Inv(s) && clock >= s.clock
    ensures Inv(s.(clock := clock))
  {
    assert ReplaysFounded(s.(clock := clock));
  }

  /** The steps that touch neither the table nor the history. */
  predicate IsLocal(step: Step) {
    step.Begin? || step.CreateFails? || step.WorkReturns? || step.WorkThrows? || step.DeleteFails?
  }

  lemma {:induction false} LocalMoves(s: State, step: Step)
    requires RequestsSound(s) && Enabled(s, step) && IsLocal(step)
    ensures PlainMove(s, Next(s, step), step.r)
  {
    assert RequestSound(s.requests[step.r], s.updateFailed, s.purged);
  }

  lemma {:induction false} InvLocal(s: State, step: Step)
    requires Inv(s) && Enabled(s, step) && IsLocal(step)
    ensures Inv(Next(s, step))
  {
    LocalMoves(s, step);
    InvMove(s, Next(s, step), step.r);
  }

  lemma {:induction false} InvStep(s: State, step: Step)
    requires Inv(s) && Enabled(s, step)
    ensures Inv(Next(s, step))
  {
    if IsLocal(step) {
      InvLocal(s, step);
    } else {
      match step
      case Tick(clock) => InvTick(s, clock);
      case Purge(now) => InvPurge(s, now);
      case Create(r) => InvInsert(s, r);
      case Find(r) => InvFindStep(s, r);
      case Update(r) => InvComplete(s, r);
      case UpdateFails(r) => InvUpdateFails(s, r);
      case Delete(r) => InvDelete(s, r);
    }
  }

  lemma {:induction false} InvRun(s: State, steps: seq<Step>, t: State)
    requires Inv(s) && Runs(s, steps, t)
    ensures Inv(t)
    decreases |steps|
  {
    if |steps| == 0 {
    } else {
      InvStep(s, steps[0]);
      InvRun(Next(s, steps[0]), steps[1..], t);
    }
  }

  // ---------------------------------------------------------------- what the protocol promises

  /** The steps of one request; the clock and the purge belong to none. */
  predicate StepOf(step: Step, r: nat) { !step.Tick? && !step.Purge? && step.r == r }

  lemma {:induction false} CreateKeepsRow(s: State, r: nat, id: nat)
    requires IdsKnown(s) && Enabled(s, Create(r)) && id in s.table
    ensures id in Next(s, Create(r)).table && Next(s, Create(r)).table[id] == s.table[id]
  {
  }

  /** The row a request updates or deletes is its own. */
  lemma {:induction false} UpdateKeepsRow(s: State, r: nat, id: nat)
    requires RecordsOwned(s) && Enabled(s, Update(r)) && id in s.table && id in s.created && s.created[id].owner != r
    ensures id in Next(s, Update(r)).table && Next(s, Update(r)).table[id] == s.table[id]
  {
  }

  lemma {:induction false} DeleteKeepsRow(s: State, r: nat, id: nat)
    requires RecordsOwned(s) && Enabled(s, Delete(r)) && id in s.table && id in s.created && s.created[id].owner != r
    ensures id in Next(s, Delete(r)).table && Next(s, Delete(r)).table[id] == s.table[id]
  {
  }

  /** No request changes or removes a row another request created; the purge removes expired rows only. */
  lemma {:induction false} OnlyOwnerChanges(s: State, step: Step, id: nat)
    requires Inv(s) && Enabled(s, step) && id in s.table && !StepOf(step, s.created[id].owner)
    ensures var t := Next(s, step);
      if id in t.table then t.table[id] == s.table[id] else step.Purge? && s.table[id].expiresAt < s.clock
  {
    match step
    case Find(r) => var answer := FindAnswers(s, r);
    case Create(r) => CreateKeepsRow(s, r, id);
    case Update(r) => UpdateKeepsRow(s, r, id);
    case Delete(r) => DeleteKeepsRow(s, r, id);
    case _ =>
  }

  lemma {:induction false} StepKeepsRequest(s: State, step: Step, r: nat)
    requires Enabled(s, step) && r in s.requests
    ensures r in Next(s, step).requests
    ensures var q, q' := s.requests[r], Next(s, step).requests[r];
      && q'.scope == q.scope && q'.hash == q.hash
      && (q.pc.Done? ==> q' == q)
      && (q.worked ==> q'.worked)
  {
    match step
    case Find(x) =>
      var q := s.requests[x];
      if KeyTaken(s.table, q.scope) {
        var id :| Holds(s.table, q.scope, id) && Next(s, step) == Move(s, x, Done(Answer(s.table[id], q.hash)));
      }
    case _ =>
  }

  /** An answer, once given, stays, and so does everything a request was called with. */
  lemma {:induction false} AnswersStay(s: State, steps: seq<Step>, t: State, r: nat)
    requires Runs(s, steps, t) && r in s.requests
    ensures r in t.requests && t.requests[r].scope == s.requests[r].scope && t.requests[r].hash == s.requests[r].hash
    ensures s.requests[r].pc.Done? ==> t.requests[r] == s.requests[r]
    decreases |steps|
  {
    if |steps| == 0 {
    } else {
      StepKeepsRequest(s, steps[0], r);
      AnswersStay(Next(s, steps[0]), steps[1..], t, r);
    }
  }

  /** Whatever is replayed is what a request with the same key and body received from its own work. */
  lemma {:induction false} ReplayIsRecorded(s: State, steps: seq<Step>, t: State, r: nat)
    requires Init(s) && Runs(s, steps, t)
    requires r in t.requests && IsReplay(t.requests[r])
    ensures exists w :: w in t.requests && w != r && IsSourceOf(t.requests[w], t.requests[r])
  {
    InvInit(s);
    InvRun(s, steps, t);
    var w :| w in t.requests && IsSourceOf(t.requests[w], t.requests[r]);
  }

  // ---------------------------------------------------------------- answers and what the work returned

  /** The work of the request has not returned or thrown yet. */
  predicate Early(q: Request) { q.pc.Ready? || q.pc.Creating? || q.pc.Conflicted? || q.pc.Working? }

  /** The request is through, or about to be, without a result of its own. */
  predicate Ended(q: Request) { q.pc.Failing? || (q.pc.Done? && !q.pc.outcome.Fresh?) }

  /** The row, if it is still there, holds the result. */
  ghost predicate RowHolds(table: map<nat, Record>, id: nat, result: Result) {
    id in table ==>
      && table[id].status == Termine && table[id].responseStatus == Some(result.status)
      && table[id].responseBody == Some(result.body) && table[id].resourceId == result.resourceId
  }

  /** The request has the result in hand, or has answered with it and left it in its row. */
  ghost predicate HasResult(s: State, r: nat, result: Result)
    requires r in s.requests
  {
    var q := s.requests[r];
    && q.record.Some?
    && (q.pc == Completing(result)
        || (q.pc == Done(Fresh(result.status, result.body)) && RowHolds(s.table, q.record.value, result)))
  }

  /** A step of another request, of the clock or of the purge. */
  lemma {:induction false} OthersLeaveRequest(s: State, step: Step, r: nat)
    requires Enabled(s, step) && r in s.requests && !StepOf(step, r)
    ensures r in Next(s, step).requests && Next(s, step).requests[r] == s.requests[r]
  {
    match step
    case Find(x) =>
      var q := s.requests[x];
      if KeyTaken(s.table, q.scope) {
        var id :| Holds(s.table, q.scope, id) && Next(s, step) == Move(s, x, Done(Answer(s.table[id], q.hash)));
      }
    case _ =>
  }

  lemma {:induction false} FindLeavesTable(s: State, r: nat)
    requires Enabled(s, Find(r))
    ensures Next(s, Find(r)).table == s.table
  {
    var q := s.requests[r];
    if KeyTaken(s.table, q.scope) {
      var id :| Holds(s.table, q.scope, id) && Next(s, Find(r)) == Move(s, r, Done(Answer(s.table[id], q.hash)));
    }
  }

  /** A row that has gone does not come back: identifiers are not used again. */
  lemma {:induction false} GoneStaysGone(s: State, step: Step, id: nat)
    requires IdsKnown(s) && Enabled(s, step) && id in s.created && id !in s.table
    ensures id !in Next(s, step).table
  {
    match step
    case Find(r) => FindLeavesTable(s, r);
    case _ =>
  }

  lemma {:induction false} ResultStaysBeside(s: State, step: Step, r: nat, result: Result)
    requires Inv(s) && Enabled(s, step) && r in s.requests && HasResult(s, r, result) && !StepOf(step, r)
    ensures r in Next(s, step).requests && HasResult(Next(s, step), r, result)
  {
    OthersLeaveRequest(s, step, r);
    var t, id := Next(s, step), s.requests[r].record.value;
    if id in s.table {
      OnlyOwnerChanges(s, step, id);
    } else {
      GoneStaysGone(s, step, id);
    }
  }

  lemma {:induction false} UpdateWithResult(s: State, r: nat, result: Result)
    requires Inv(s) && Enabled(s, Update(r)) && HasResult(s, r, result)
    ensures r in Next(s, Update(r)).requests
    ensures HasResult(Next(s, Update(r)), r, result) || Ended(Next(s, Update(r)).requests[r])
  {
  }

  lemma {:induction false} OwnStepWithResult(s: State, step: Step, r: nat, result: Result)
    requires Inv(s) && Enabled(s, step) && r in s.requests && HasResult(s, r, result) && StepOf(step, r)
    ensures step.Update? || step.UpdateFails?
    ensures r in Next(s, step).requests
    ensures HasResult(Next(s, step), r, result) || Ended(Next(s, step).requests[r])
  {
    assert step.Update? || step.UpdateFails?;
    if step.Update? {
      UpdateWithResult(s, r, result);
    }
  }

  lemma {:induction false} EndedStep(s: State, step: Step, r: nat)
    requires Enabled(s, step) && r in s.requests && Ended(s.requests[r])
    ensures r in Next(s, step).requests && Ended(Next(s, step).requests[r]) && !(step.WorkReturns? && step.r == r)
  {
    if !StepOf(step, r) {
      OthersLeaveRequest(s, step, r);
    }
  }

  /** The work of the request returns in none of the steps. */
  ghost predicate NoReturn(steps: seq<Step>, r: nat) { forall result :: WorkReturns(r, result) !in steps }

  lemma {:induction false} NoReturnBefore(steps: seq<Step>, r: nat)
    requires |steps| > 0 && NoReturn(steps[1..], r) && !(steps[0].WorkReturns? && steps[0].r == r)
    ensures NoReturn(steps, r)
  {
    assert steps == [steps[0]] + steps[1..];
  }

  lemma {:induction false} EndedStays(s: State, steps: seq<Step>, t: State, r: nat)
    requires Runs(s, steps, t) && r in s.requests && Ended(s.requests[r])
    ensures r in t.requests && Ended(t.requests[r])
    ensures NoReturn(steps, r)
    decreases |steps|
  {
    if |steps| == 0 {
    } else {
      EndedStep(s, steps[0], r);
      EndedStays(Next(s, steps[0]), steps[1..], t, r);
      NoReturnBefore(steps, r);
    }
  }

  lemma {:induction false} ResultStep(s: State, step: Step, r: nat, result: Result)
    requires Inv(s) && Enabled(s, step) && r in s.requests && HasResult(s, r, result)
    ensures var t := Next(s, step); r in t.requests && (HasResult(t, r, result) || Ended(t.requests[r]))
    ensures !(step.WorkReturns? && step.r == r)
  {
    if StepOf(step, r) {
      OwnStepWithResult(s, step, r, result);
    } else {
      ResultStaysBeside(s, step, r, result);
    }
  }

  lemma {:induction false} ResultStays(s: State, steps: seq<Step>, t: State, r: nat, result: Result)
    requires Inv(s) && Runs(s, steps, t) && r in s.requests && HasResult(s, r, result)
    ensures r in t.requests && (HasResult(t, r, result) || Ended(t.requests[r]))
    ensures NoReturn(steps, r)
    decreases |steps|
  {
    if |steps| == 0 {
    } else {
      var s' := Next(s, steps[0]);
      InvStep(s, steps[0]);
      ResultStep(s, steps[0], r, result);
      if Ended(s'.requests[r]) {
        EndedStays(s', steps[1..], t, r);
      } else {
        ResultStays(s', steps[1..], t, r, result);
      }
      NoReturnBefore(steps, r);
    }
  }

  lemma {:induction false} OwnEarlyStep(s: State, step: Step, r: nat)
    requires Inv(s) && Enabled(s, step) && r in s.requests && Early(s.requests[r]) && StepOf(step, r)
    ensures var t := Next(s, step);
      && r in t.requests
      && if step.WorkReturns? then HasResult(t, r, step.result) else Early(t.requests[r]) || Ended(t.requests[r])
  {
    assert RequestSound(s.requests[r], s.updateFailed, s.purged);
    if step.Find? {
      var answer := FindAnswers(s, r);
    }
  }

  lemma {:induction false} EarlyStep(s: State, step: Step, r: nat)
    requires Inv(s) && Enabled(s, step) && r in s.requests && Early(s.requests[r])
    ensures var t := Next(s, step);
      && r in t.requests
      && if step.WorkReturns? && step.r == r then HasResult(t, r, step.result)
         else Early(t.requests[r]) || Ended(t.requests[r])
  {
    if StepOf(step, r) {
      OwnEarlyStep(s, step, r);
    } else {
      OthersLeaveRequest(s, step, r);
    }
  }

  /** After the steps the request is early or has ended, or it has the result that its work returned in them. */
  ghost predicate Accounted(steps: seq<Step>, t: State, r: nat) {
    && r in t.requests
    && (Early(t.requests[r]) || Ended(t.requests[r])
        || exists result :: WorkReturns(r, result) in steps && HasResult(t, r, result))
    && forall result :: WorkReturns(r, result) in steps ==> HasResult(t, r, result) || Ended(t.requests[r])
  }

  lemma {:induction false} AccountedLater(step: Step, steps: seq<Step>, t: State, r: nat)
    requires Accounted(steps, t, r) && !(step.WorkReturns? && step.r == r)
    ensures Accounted([step] + steps, t, r)
  {
    assert forall result :: WorkReturns(r, result) in [step] + steps <==> WorkReturns(r, result) in steps;
  }

  lemma {:induction false} AccountedFirst(s: State, steps: seq<Step>, t: State, r: nat, result: Result)
    requires Inv(s) && Runs(s, steps, t) && r in s.requests && HasResult(s, r, result)
    ensures Accounted([WorkReturns(r, result)] + steps, t, r)
  {
    ResultStays(s, steps, t, r, result);
    assert WorkReturns(r, result) in [WorkReturns(r, result)] + steps;
  }

  /** The work of a request returns once, and its result stays in hand until the request gives up. */
  lemma {:induction false} EarlyRun(s: State, steps: seq<Step>, t: State, r: nat)
    requires Inv(s) && Runs(s, steps, t) && r in s.requests && Early(s.requests[r])
    ensures Accounted(steps, t, r)
    decreases |steps|
  {
    if |steps| == 0 {
    } else {
      var s', step, rest := Next(s, steps[0]), steps[0], steps[1..];
      assert steps == [step] + rest;
      InvStep(s, step);
      EarlyStep(s, step, r);
      if step.WorkReturns? && step.r == r {
        AccountedFirst(s', rest, t, r, step.result);
      } else {
        if Early(s'.requests[r]) {
          EarlyRun(s', rest, t, r);
        } else {
          EndedStays(s', rest, t, r);
        }
        AccountedLater(step, rest, t, r);
      }
    }
  }

  lemma {:induction false} StepKeepsKeys(s: State, step: Step)
    requires Enabled(s, step)
    ensures Next(s, step).requests.Keys == s.requests.Keys
  {
    match step
    case Find(r) =>
      var q := s.requests[r];
      if KeyTaken(s.table, q.scope) {
        var id :| Holds(s.table, q.scope, id) && Next(s, step) == Move(s, r, Done(Answer(s.table[id], q.hash)));
      }
    case _ =>
  }

  lemma {:induction false} SameRequests(s: State, steps: seq<Step>, t: State)
    requires Runs(s, steps, t)
    ensures t.requests.Keys == s.requests.Keys
    decreases |steps|
  {
    if |steps| == 0 {
    } else {
      SameRequests(Next(s, steps[0]), steps[1..], t);
      StepKeepsKeys(s, steps[0]);
    }
  }

  /**
   A request that answers with a result of its own answers with what its work returned in this run, and as long
   as its row is there it holds the same status, body and resource.
   */
  lemma {:induction false} AnswerIsOwnWork(s: State, steps: seq<Step>, t: State, r: nat, status: int, body: string)
    requires Init(s) && Runs(s, steps, t) && r in t.requests && t.requests[r].pc == Done(Fresh(status, body))
    ensures t.requests[r].record.Some?
    ensures exists result ::
      && WorkReturns(r, result) in steps && status == result.status && body == result.body
      && forall id :: id in t.table && t.requests[r].record == Some(id) ==>
        && t.table[id].status == Termine && t.table[id].responseStatus == Some(result.status)
        && t.table[id].responseBody == Some(result.body) && t.table[id].resourceId == result.resourceId
  {
    InvInit(s);
    SameRequests(s, steps, t);
    EarlyRun(s, steps, t, r);
    var result :| WorkReturns(r, result) in steps && HasResult(t, r, result);
    assert RowHolds(t.table, t.requests[r].record.value, result);
  }

  /** What a request replays, the work of another request with the same key and body returned in this run. */
  lemma {:induction false} ReplayIsWork(
      s: State, steps: seq<Step>, t: State, r: nat, status: int, body: Option<string>)
    requires Init(s) && Runs(s, steps, t) && r in t.requests && t.requests[r].pc == Done(Replayed(status, body))
    ensures exists w, result ::
      && WorkReturns(w, result) in steps && w != r && w in t.requests
      && t.requests[w].scope == t.requests[r].scope && t.requests[w].hash == t.requests[r].hash
      && status == result.status && body == Some(result.body)
  {
    ReplayIsRecorded(s, steps, t, r);
    var w :| w in t.requests && w != r && IsSourceOf(t.requests[w], t.requests[r]);
    AnswerIsOwnWork(s, steps, t, w, t.requests[w].pc.outcome.status, t.requests[w].pc.outcome.body);
  }

  /** The steps after which a request may end without a result although its work has returned. */
  predicate Excuse(step: Step, r: nat) {
    step.Purge? || ((step.CreateFails? || step.Find? || step.WorkThrows? || step.UpdateFails?) && step.r == r)
  }

  lemma {:induction false} OwnStepNoExcuse(s: State, step: Step, r: nat)
    requires Inv(s) && Enabled(s, step) && r in s.requests && !s.purged && !Ended(s.requests[r])
    requires StepOf(step, r) && !Excuse(step, r)
    ensures r in Next(s, step).requests && !Next(s, step).purged && !Ended(Next(s, step).requests[r])
  {
    assert step.Update? ==> Live(s.requests[r]);
  }

  lemma {:induction false} NoExcuseStep(s: State, step: Step, r: nat)
    requires Inv(s) && Enabled(s, step) && r in s.requests && !s.purged && !Ended(s.requests[r]) && !Excuse(step, r)
    ensures r in Next(s, step).requests && !Next(s, step).purged && !Ended(Next(s, step).requests[r])
  {
    if StepOf(step, r) {
      OwnStepNoExcuse(s, step, r);
    } else {
      OthersLeaveRequest(s, step, r);
      if step.Find? {
        var answer := FindAnswers(s, step.r);
      }
    }
  }

  /** No step of the run is an excuse. */
  ghost predicate NoExcuse(steps: seq<Step>, r: nat) { forall step :: step in steps ==> !Excuse(step, r) }

  lemma {:induction false} NoExcuseLater(steps: seq<Step>, r: nat)
    requires |steps| > 0 && NoExcuse(steps, r)
    ensures !Excuse(steps[0], r) && NoExcuse(steps[1..], r)
  {
    assert steps == [steps[0]] + steps[1..];
  }

  lemma {:induction false} NoExcuseRun(s: State, steps: seq<Step>, t: State, r: nat)
    requires Inv(s) && Runs(s, steps, t) && r in s.requests && !s.purged && !Ended(s.requests[r])
    requires NoExcuse(steps, r)
    ensures r in t.requests && !Ended(t.requests[r])
    decreases |steps|
  {
    if |steps| == 0 {
    } else {
      NoExcuseLater(steps, r);
      InvStep(s, steps[0]);
      NoExcuseStep(s, steps[0], r);
      NoExcuseRun(Next(s, steps[0]), steps[1..], t, r);
    }
  }

  /**
   A request ends without a result of its own only after a conflict, a failed insertion, a work that threw, a failed
   update or a purge; when its work has returned and it is through without any of these, it answers with the result.
   */
  lemma {:induction false} NothingElseFails(s: State, steps: seq<Step>, t: State, r: nat)
    requires Init(s) && Runs(s, steps, t) && r in t.requests
    requires NoExcuse(steps, r)
    ensures t.requests[r].pc.Done? ==> t.requests[r].pc.outcome.Fresh?
    ensures forall result :: WorkReturns(r, result) in steps && t.requests[r].pc.Done? ==>
      t.requests[r].pc.outcome == Fresh(result.status, result.body)
  {
    InvInit(s);
    SameRequests(s, steps, t);
    NoExcuseRun(s, steps, t, r);
    EarlyRun(s, steps, t, r);
    forall result | WorkReturns(r, result) in steps && t.requests[r].pc.Done?
      ensures t.requests[r].pc.outcome == Fresh(result.status, result.body)
    {
      assert HasResult(t, r, result);
    }
  }

  // ---------------------------------------------------------------- what one call meets

  /** A finished row has an answer. */
  lemma {:induction false} RowIsComplete(s: State, id: nat)
    requires Inv(s) && id in s.table
    ensures s.table[id].status == Termine ==> s.table[id].responseStatus.Some?
  {
    assert RowMatches(s.table[id], s.requests[s.created[id].owner], s.created[id]);
  }

  /** What a row of the key tells a call: another body, work in progress, or the recorded response. */
  predicate Tells(row: Record, hash: string, pc: Pc) {
    if row.requestHash != hash then pc == Done(BodyDiffers)
    else if row.status == EnCours then pc == Done(InProgress)
    else row.responseStatus.Some? && pc == Done(Replayed(row.responseStatus.value, row.responseBody))
  }

  /** What a conflicting call is told, by the row it finds. */
  lemma {:induction false} FindMeans(s: State, r: nat)
    requires Inv(s) && At(s, r, Conflicted)
    ensures var q, pc := s.requests[r], Next(s, Find(r)).requests[r].pc;
      if exists id :: id in s.table && s.table[id].scope == q.scope then
        exists id :: id in s.table && s.table[id].scope == q.scope && Tells(s.table[id], q.hash, pc)
      else pc == Done(Failed)
  {
    var q := s.requests[r];
    var answer := FindAnswers(s, r);
    if id :| id in s.table && s.table[id].scope == q.scope {
      assert Holds(s.table, q.scope, id);
      RowIsComplete(s, id);
    }
  }

  lemma {:induction false} TakenMeans(s: State, scope: Scope)
    ensures KeyTaken(s.table, scope) <==> exists id :: id in s.table && s.table[id].scope == scope
  {
    if id :| id in s.table && s.table[id].scope == scope {
      assert Holds(s.table, scope, id);
    }
  }

  /** The row an insertion adds, for 24 hours. */
  ghost predicate AddsRow(s: State, t: State, r: nat, id: nat)
    requires r in s.requests && s.requests[r].pc.Creating? && r in t.requests
  {
    var q := s.requests[r];
    && id !in s.table && t.requests[r].record == Some(id) && t.requests[r].pc == Working
    && t.table == s.table[id := Record(q.scope, q.hash, EnCours, None, None, None, q.pc.now + 86_400_000)]
  }

  /** An insertion is refused exactly when a row has the same key, and else adds one that expires after 24 hours. */
  lemma {:induction false} CreateMeans(s: State, r: nat)
    requires Inv(s) && Enabled(s, Create(r))
    ensures var t := Next(s, Create(r));
      && r in t.requests
      && if exists id :: id in s.table && s.table[id].scope == s.requests[r].scope then
           t.requests[r].pc == Conflicted && t.table == s.table
         else exists id :: AddsRow(s, t, r, id)
  {
    TakenMeans(s, s.requests[r].scope);
    if !KeyTaken(s.table, s.requests[r].scope) {
      assert s.nextId !in s.table;
      assert AddsRow(s, Next(s, Create(r)), r, s.nextId);
    }
  }

  /** A purge leaves exactly the rows of requests that began at most 24 hours before its instant, as they are. */
  lemma {:induction false} PurgeMeans(s: State, now: int)
    requires Inv(s) && Enabled(s, Purge(now))
    ensures var t := Next(s, Purge(now));
      && t.requests == s.requests
      && (forall id :: id in t.table <==> id in s.table && now <= s.created[id].begun + 86_400_000)
      && (forall id :: id in t.table ==> t.table[id] == s.table[id])
  {
    forall id | id in s.table ensures s.table[id].expiresAt == s.created[id].begun + 86_400_000 {
      assert RowMatches(s.table[id], s.requests[s.created[id].owner], s.created[id]);
    }
  }

  predicate NoPurge(steps: seq<Step>) { forall k :: 0 <= k < |steps| ==> !steps[k].Purge? }

  predicate UpdatesSucceed(steps: seq<Step>) { forall k :: 0 <= k < |steps| ==> !steps[k].UpdateFails? }

  lemma {:induction false} HistoryFlags(s: State, steps: seq<Step>, t: State)
    requires Runs(s, steps, t)
    ensures NoPurge(steps) ==> t.purged == s.purged
    ensures UpdatesSucceed(steps) ==> t.updateFailed == s.updateFailed
    decreases |steps|
  {
    if |steps| == 0 {
    } else {
      HistoryFlags(Next(s, steps[0]), steps[1..], t);
      assert steps == [steps[0]] + steps[1..];
    }
  }

  /** A step that can make the work of a key run again: its update fails, or the purge removes a row of the key. */
  ghost predicate Disturbs(s: State, step: Step, scope: Scope) {
    match step
    case UpdateFails(r) => r in s.requests && s.requests[r].scope == scope
    case Purge(now) => exists id :: Holds(s.table, scope, id) && s.table[id].expiresAt < now
    case _ => false
  }

  /** No step of the run disturbs the key. */
  ghost predicate Undisturbed(s: State, steps: seq<Step>, t: State, scope: Scope)
    requires Runs(s, steps, t)
    decreases |steps|
  {
    |steps| == 0 || (!Disturbs(s, steps[0], scope) && Undisturbed(Next(s, steps[0]), steps[1..], t, scope))
  }

  /** A request of the key that works, has worked or has recorded its result has its row in the table. */
  ghost predicate RowHeld(s: State, q: Request, scope: Scope) {
    q.scope == scope ==>
      && (Live(q) && q.record.Some? ==> q.record.value in s.table)
      && (q.worked ==> Live(q))
  }

  ghost predicate KeyHeld(s: State, scope: Scope) {
    forall r :: r in s.requests ==> RowHeld(s, s.requests[r], scope)
  }

  predicate RowStays(s: State, t: State, q: Request) {
    q.record.Some? && q.record.value in s.table ==> q.record.value in t.table
  }

  /** The rows of requests other than r are still there. */
  ghost predicate OtherRowsStay(s: State, t: State, r: nat) {
    forall x :: x in s.requests && x != r ==> RowStays(s, t, s.requests[x])
  }

  /** Requests other than r keep their rows when the table loses at most rows they do not own. */
  lemma {:induction false} OthersHeld(s: State, t: State, r: nat, scope: Scope)
    requires KeyHeld(s, scope) && r in s.requests && r in t.requests
    requires t.requests == s.requests[r := t.requests[r]]
    requires OtherRowsStay(s, t, r)
    requires RowHeld(t, t.requests[r], scope)
    ensures KeyHeld(t, scope)
  {
    forall x | x in t.requests ensures RowHeld(t, t.requests[x], scope) {
      assert x != r ==> RowHeld(s, s.requests[x], scope) && RowStays(s, t, s.requests[x]);
    }
  }

  lemma {:induction false} MoveHeld(s: State, t: State, r: nat, scope: Scope)
    requires KeyHeld(s, scope) && r in s.requests && r in t.requests && t.table == s.table
    requires t.requests == s.requests[r := t.requests[r]]
    requires t.requests[r].record == s.requests[r].record
    requires s.requests[r].scope == scope ==>
      (Live(t.requests[r]) ==> Live(s.requests[r])) && (t.requests[r].worked ==> Live(t.requests[r]))
    requires t.requests[r].scope == s.requests[r].scope
    ensures KeyHeld(t, scope)
  {
    assert RowHeld(s, s.requests[r], scope);
    OthersHeld(s, t, r, scope);
  }

  lemma {:induction false} InsertHeld(s: State, r: nat, scope: Scope)
    requires RequestsSound(s) && Enabled(s, Create(r)) && !KeyTaken(s.table, s.requests[r].scope)
    ensures OtherRowsStay(s, Insert(s, r), r) && RowHeld(Insert(s, r), Insert(s, r).requests[r], scope)
  {
    assert RequestSound(s.requests[r], s.updateFailed, s.purged);
  }

  lemma {:induction false} CreateHeld(s: State, r: nat, scope: Scope)
    requires Inv(s) && KeyHeld(s, scope) && Enabled(s, Create(r))
    ensures KeyHeld(Insert(s, r), scope)
  {
    assert RequestSound(s.requests[r], s.updateFailed, s.purged);
    if KeyTaken(s.table, s.requests[r].scope) {
      MoveHeld(s, Insert(s, r), r, scope);
    } else {
      InsertHeld(s, r, scope);
      OthersHeld(s, Insert(s, r), r, scope);
    }
  }

  lemma {:induction false} UpdateHeld(s: State, r: nat, scope: Scope)
    requires Inv(s) && KeyHeld(s, scope) && Enabled(s, Update(r))
    ensures KeyHeld(Complete(s, r), scope)
  {
    assert RequestSound(s.requests[r], s.updateFailed, s.purged);
    assert RowHeld(s, s.requests[r], scope);
    OthersHeld(s, Complete(s, r), r, scope);
  }

  /** The row of r is the row of no other request. */
  lemma {:induction false} OtherRows(s: State, r: nat, x: nat)
    requires RecordsOwned(s) && r in s.requests && x in s.requests && x != r
    requires s.requests[r].record.Some? && s.requests[x].record.Some?
    ensures s.requests[r].record != s.requests[x].record
  {
    assert s.created[s.requests[r].record.value].owner == r;
  }

  lemma {:induction false} DeleteHeld(s: State, r: nat, scope: Scope)
    requires Inv(s) && KeyHeld(s, scope) && Enabled(s, Delete(r))
    ensures KeyHeld(Next(s, Delete(r)), scope)
  {
    var t := Next(s, Delete(r));
    assert RowHeld(s, s.requests[r], scope);
    forall x | x in s.requests && x != r ensures RowStays(s, t, s.requests[x]) {
      if s.requests[x].record.Some? {
        OtherRows(s, r, x);
      }
    }
    OthersHeld(s, t, r, scope);
  }

  lemma {:induction false} PurgeHeld(s: State, now: int, scope: Scope)
    requires Inv(s) && KeyHeld(s, scope) && Enabled(s, Purge(now)) && !Disturbs(s, Purge(now), scope)
    ensures KeyHeld(Next(s, Purge(now)), scope)
  {
    var t := Next(s, Purge(now));
    forall r | r in t.requests ensures RowHeld(t, t.requests[r], scope) {
      assert RowHeld(s, s.requests[r], scope);
      if s.requests[r].scope == scope && s.requests[r].record.Some? && s.requests[r].record.value in s.table {
        var id := s.requests[r].record.value;
        assert RowMatches(s.table[id], s.requests[s.created[id].owner], s.created[id]);
        assert Holds(s.table, scope, id);
      }
    }
  }

  lemma {:induction false} FindHeld(s: State, r: nat, scope: Scope)
    requires Inv(s) && KeyHeld(s, scope) && Enabled(s, Find(r))
    ensures KeyHeld(Next(s, Find(r)), scope)
  {
    assert RequestSound(s.requests[r], s.updateFailed, s.purged);
    var answer := FindAnswers(s, r);
    MoveHeld(s, Next(s, Find(r)), r, scope);
  }

  lemma {:induction false} LocalStaysHeld(s: State, step: Step, scope: Scope)
    requires RequestsSound(s) && KeyHeld(s, scope) && Enabled(s, step) && IsLocal(step)
    ensures s.requests[step.r].scope == scope ==>
      (Next(s, step).requests[step.r].worked ==> Live(Next(s, step).requests[step.r]))
  {
    assert RequestSound(s.requests[step.r], s.updateFailed, s.purged);
    assert RowHeld(s, s.requests[step.r], scope);
  }

  lemma {:induction false} LocalHeld(s: State, step: Step, scope: Scope)
    requires Inv(s) && KeyHeld(s, scope) && Enabled(s, step) && IsLocal(step)
    ensures KeyHeld(Next(s, step), scope)
  {
    LocalMoves(s, step);
    LocalStaysHeld(s, step, scope);
    MoveHeld(s, Next(s, step), step.r, scope);
  }

  lemma {:induction false} StepHeld(s: State, step: Step, scope: Scope)
    requires Inv(s) && KeyHeld(s, scope) && Enabled(s, step) && !Disturbs(s, step, scope)
    ensures KeyHeld(Next(s, step), scope)
  {
    if IsLocal(step) {
      LocalHeld(s, step, scope);
    } else {
      match step
      case Tick(clock) =>
        forall r | r in s.requests ensures RowHeld(s.(clock := clock), s.requests[r], scope) {
          assert RowHeld(s, s.requests[r], scope);
        }
      case Purge(now) => PurgeHeld(s, now, scope);
      case Create(r) => CreateHeld(s, r, scope);
      case Find(r) => FindHeld(s, r, scope);
      case Update(r) => UpdateHeld(s, r, scope);
      case UpdateFails(r) =>
        assert RowHeld(s, s.requests[r], scope);
        OthersHeld(s, Next(s, step), r, scope);
      case Delete(r) => DeleteHeld(s, r, scope);
    }
  }

  lemma {:induction false} RunHeld(s: State, steps: seq<Step>, t: State, scope: Scope)
    requires Inv(s) && KeyHeld(s, scope) && Runs(s, steps, t) && Undisturbed(s, steps, t, scope)
    ensures KeyHeld(t, scope)
    decreases |steps|
  {
    if |steps| == 0 {
    } else {
      InvStep(s, steps[0]);
      StepHeld(s, steps[0], scope);
      RunHeld(Next(s, steps[0]), steps[1..], t, scope);
    }
  }

  lemma {:induction false} WorkedHoldsRow(t: State, r: nat, scope: Scope)
    requires Inv(t) && KeyHeld(t, scope) && r in t.requests && t.requests[r].worked && t.requests[r].scope == scope
    ensures t.requests[r].record.Some?
    ensures var id := t.requests[r].record.value;
      Holds(t.table, scope, id) && id in t.created && t.created[id].owner == r
  {
    assert RowHeld(t, t.requests[r], scope);
    assert RequestSound(t.requests[r], t.updateFailed, t.purged);
    var id := t.requests[r].record.value;
    assert RowMatches(t.table[id], t.requests[t.created[id].owner], t.created[id]);
  }

  /** While no update of a key fails and no row of it is purged, the work of at most one of its requests returns. */
  lemma {:induction false} AtMostOneWork(s: State, steps: seq<Step>, t: State, r: nat, r': nat)
    requires Init(s) && Runs(s, steps, t)
    requires r in t.requests && r' in t.requests && t.requests[r].scope == t.requests[r'].scope
    requires Undisturbed(s, steps, t, t.requests[r].scope)
    requires t.requests[r].worked && t.requests[r'].worked
    ensures r == r'
  {
    var scope := t.requests[r].scope;
    InvInit(s);
    InvRun(s, steps, t);
    RunHeld(s, steps, t, scope);
    WorkedHoldsRow(t, r, scope);
    WorkedHoldsRow(t, r', scope);
  }

  /** In particular in runs without purge and without failing update. */
  lemma {:induction false} QuietRunsAreUndisturbed(s: State, steps: seq<Step>, t: State, scope: Scope)
    requires Runs(s, steps, t) && NoPurge(steps) && UpdatesSucceed(steps)
    ensures Undisturbed(s, steps, t, scope)
    decreases |steps|
  {
    if |steps| == 0 {
    } else {
      QuietRunsAreUndisturbed(Next(s, steps[0]), steps[1..], t, scope);
    }
  }

  /**
   With purges, recorded results of one key are a retention period apart: the later row was inserted more
   than 24 hours after the request that recorded the earlier result read the clock.
   */
  lemma {:induction false} RecordedResultsApart(s: State, steps: seq<Step>, t: State, r: nat, r': nat)
    requires Init(s) && Runs(s, steps, t)
    requires r in t.requests && r' in t.requests && r != r' && t.requests[r].scope == t.requests[r'].scope
    requires IsFresh(t.requests[r]) && IsFresh(t.requests[r'])
    ensures t.requests[r].record.Some? && t.requests[r'].record.Some?
    ensures var id, id' := t.requests[r].record.value, t.requests[r'].record.value;
      && id in t.created && id' in t.created
      && if id < id' then t.created[id'].at > t.created[id].begun + RETENTION_MS
        else t.created[id].at > t.created[id'].begun + RETENTION_MS
  {
    InvInit(s);
    InvRun(s, steps, t);
    assert RequestSound(t.requests[r], t.updateFailed, t.purged);
    assert RequestSound(t.requests[r'], t.updateFailed, t.purged);
    assert LivePair(t.requests[r], t.requests[r']) || LivePair(t.requests[r'], t.requests[r]);
  }

  /**
   Until its row expires, a recorded result answers every request that meets its key: the same body gets
   the result again, another body is refused.
   */
  lemma {:induction false} RetentionAnswers(s: State, r: nat, r': nat)
    requires Inv(s) && r in s.requests && r' in s.requests && IsFresh(s.requests[r])
    requires s.requests[r].scope == s.requests[r'].scope
    requires s.requests[r].record.Some? && s.clock <= s.created[s.requests[r].record.value].begun + RETENTION_MS
    ensures s.requests[r'].pc.Creating? ==> Next(s, Create(r')) == Move(s, r', Conflicted)
    ensures At(s, r', Conflicted) ==>
      Next(s, Find(r')) == Move(s, r',
        Done(if s.requests[r'].hash == s.requests[r].hash
             then Replayed(s.requests[r].pc.outcome.status, Some(s.requests[r].pc.outcome.body))
             else BodyDiffers))
  {
    var id := s.requests[r].record.value;
    assert id in s.table;
    assert RowMatches(s.table[id], s.requests[r], s.created[id]);
    assert Holds(s.table, s.requests[r'].scope, id);
    if At(s, r', Conflicted) {
      var answer := FindAnswers(s, r');
    }
  }

  function FailedBy(step: Step): set<nat> { if step.DeleteFails? then {step.r} else {} }

  /** The requests whose delete failed in the run. */
  function DeleteFailures(steps: seq<Step>): set<nat>
    decreases |steps|
  {
    if |steps| == 0 then {}
    else FailedBy(steps[0]) + DeleteFailures(steps[1..])
  }

  predicate GaveUp(q: Request) { q.pc.Done? && q.pc.outcome.Failed? && q.record.Some? }

  /** A request that is not through, or has recorded its result. */
  predicate KeepsRow(q: Request) { q.record.Some? && !GaveUp(q) }

  /** Which rows of failed requests remain: those whose delete failed, and without purge all of those. */
  ghost predicate RowFate(s: State, q: Request, failed: bool) {
    && (GaveUp(q) && q.record.value in s.table ==> failed)
    && (!s.purged && GaveUp(q) && failed ==> q.record.value in s.table)
    && (!s.purged && KeepsRow(q) ==> q.record.value in s.table)
  }

  ghost predicate RowFates(s: State, failed: set<nat>) {
    forall r :: r in s.requests ==> RowFate(s, s.requests[r], r in failed)
  }

  predicate SameRow(s: State, t: State, q: Request) {
    q.record.Some? ==> (q.record.value in t.table <==> q.record.value in s.table)
  }

  ghost predicate OtherRowsSame(s: State, t: State, r: nat) {
    forall x :: x in s.requests && x != r ==> SameRow(s, t, s.requests[x])
  }

  /** One request moves, the others keep their rows or have lost them to a purge. */
  lemma {:induction false} FatesMove(s: State, t: State, r: nat, failed: set<nat>, failed': set<nat>)
    requires RowFates(s, failed) && r in s.requests && r in t.requests && t.requests == s.requests[r := t.requests[r]]
    requires failed <= failed' <= failed + {r} && t.purged == s.purged
    requires OtherRowsSame(s, t, r)
    requires RowFate(t, t.requests[r], r in failed')
    ensures RowFates(t, failed')
  {
    forall x | x in t.requests ensures RowFate(t, t.requests[x], x in failed') {
      assert x != r ==> RowFate(s, s.requests[x], x in failed) && SameRow(s, t, s.requests[x]);
    }
  }

  lemma {:induction false} DeleteTakesOneRow(s: State, r: nat)
    requires RecordsOwned(s) && Enabled(s, Delete(r))
    ensures OtherRowsSame(s, Next(s, Delete(r)), r)
  {
    var t := Next(s, Delete(r));
    forall x | x in s.requests && x != r ensures SameRow(s, t, s.requests[x]) {
      if s.requests[x].record.Some? {
        OtherRows(s, r, x);
      }
    }
  }

  lemma {:induction false} DeleteFates(s: State, r: nat, failed: set<nat>)
    requires Inv(s) && RowFates(s, failed) && Enabled(s, Delete(r)) && r !in failed
    ensures RowFates(Next(s, Delete(r)), failed)
  {
    DeleteTakesOneRow(s, r);
    FatesMove(s, Next(s, Delete(r)), r, failed, failed);
  }

  lemma {:induction false} CreateTakesNoRow(s: State, r: nat)
    requires RecordsOwned(s) && IdsKnown(s) && Enabled(s, Create(r))
    ensures OtherRowsSame(s, Insert(s, r), r)
  {
    var t := Insert(s, r);
    forall x | x in s.requests && x != r ensures SameRow(s, t, s.requests[x]) {
      assert s.requests[x].record.Some? ==> s.requests[x].record.value in s.created;
    }
  }

  lemma {:induction false} CreateFates(s: State, r: nat, failed: set<nat>)
    requires Inv(s) && RowFates(s, failed) && Enabled(s, Create(r))
    ensures RowFates(Insert(s, r), failed)
  {
    assert RequestSound(s.requests[r], s.updateFailed, s.purged);
    CreateTakesNoRow(s, r);
    FatesMove(s, Insert(s, r), r, failed, failed);
  }

  lemma {:induction false} PurgeFates(s: State, now: int, failed: set<nat>)
    requires RowFates(s, failed) && Enabled(s, Purge(now))
    ensures RowFates(Next(s, Purge(now)), failed)
  {
    var t := Next(s, Purge(now));
    forall r | r in t.requests ensures RowFate(t, t.requests[r], r in failed) {
      assert RowFate(s, s.requests[r], r in failed);
    }
  }

  lemma {:induction false} FindFates(s: State, r: nat, failed: set<nat>)
    requires Inv(s) && RowFates(s, failed) && Enabled(s, Find(r))
    ensures RowFates(Next(s, Find(r)), failed)
  {
    assert RequestSound(s.requests[r], s.updateFailed, s.purged);
    var answer := FindAnswers(s, r);
    FatesMove(s, Next(s, Find(r)), r, failed, failed);
  }

  /** Only r moves, the table keeps its rows. */
  lemma {:induction false} FatesKept(s: State, t: State, r: nat, failed: set<nat>, failed': set<nat>)
    requires RowFates(s, failed) && r in s.requests && r in t.requests && t.requests == s.requests[r := t.requests[r]]
    requires failed <= failed' <= failed + {r} && t.purged == s.purged && t.table.Keys == s.table.Keys
    requires RowFate(t, t.requests[r], r in failed')
    ensures RowFates(t, failed')
  {
    forall x | x in s.requests && x != r ensures SameRow(s, t, s.requests[x]) {
      assert forall id :: id in t.table.Keys <==> id in s.table.Keys;
    }
    FatesMove(s, t, r, failed, failed');
  }

  lemma {:induction false} DeleteFailsFates(s: State, r: nat, failed: set<nat>)
    requires RowFates(s, failed) && RequestsSound(s) && Enabled(s, DeleteFails(r))
    ensures RowFates(Next(s, DeleteFails(r)), failed + {r})
  {
    assert RequestSound(s.requests[r], s.updateFailed, s.purged);
    assert RowFate(s, s.requests[r], r in failed);
    FatesKept(s, Next(s, DeleteFails(r)), r, failed, failed + {r});
  }

  lemma {:induction false} LocalFates(s: State, step: Step, failed: set<nat>)
    requires RowFates(s, failed) && RequestsSound(s) && Enabled(s, step) && IsLocal(step) && !step.DeleteFails?
    ensures RowFates(Next(s, step), failed)
  {
    assert RequestSound(s.requests[step.r], s.updateFailed, s.purged);
    assert RowFate(s, s.requests[step.r], step.r in failed);
    FatesKept(s, Next(s, step), step.r, failed, failed);
  }

  lemma {:induction false} UpdateFates(s: State, r: nat, failed: set<nat>)
    requires RowFates(s, failed) && Enabled(s, Update(r))
    ensures RowFates(Complete(s, r), failed)
  {
    assert RowFate(s, s.requests[r], r in failed);
    assert Complete(s, r).table.Keys == s.table.Keys;
    FatesKept(s, Complete(s, r), r, failed, failed);
  }

  lemma {:induction false} UpdateFailsFates(s: State, r: nat, failed: set<nat>)
    requires RowFates(s, failed) && Enabled(s, UpdateFails(r))
    ensures RowFates(Next(s, UpdateFails(r)), failed)
  {
    assert RowFate(s, s.requests[r], r in failed);
    FatesKept(s, Next(s, UpdateFails(r)), r, failed, failed);
  }

  /** The requests whose delete has failed are through. */
  ghost predicate FailuresOver(s: State, failed: set<nat>) {
    forall r :: r in failed ==> r in s.requests && s.requests[r].pc == Done(Failed)
  }

  lemma {:induction false} FailuresStay(s: State, step: Step, failed: set<nat>)
    requires FailuresOver(s, failed) && Enabled(s, step)
    ensures FailuresOver(Next(s, step), failed + FailedBy(step))
  {
    forall r | r in failed ensures r in Next(s, step).requests && Next(s, step).requests[r] == s.requests[r] {
      StepKeepsRequest(s, step, r);
    }
  }

  lemma {:induction false} TickFates(s: State, clock: int, failed: set<nat>)
    requires RowFates(s, failed)
    ensures RowFates(s.(clock := clock), failed)
  {
    forall r | r in s.requests ensures RowFate(s.(clock := clock), s.requests[r], r in failed) {
      assert RowFate(s, s.requests[r], r in failed);
    }
  }

  lemma {:induction false} OtherFates(s: State, step: Step, failed: set<nat>)
    requires Inv(s) && RowFates(s, failed) && FailuresOver(s, failed) && Enabled(s, step)
    requires !step.DeleteFails? && !IsLocal(step)
    ensures RowFates(Next(s, step), failed)
  {
    match step
    case Tick(clock) => TickFates(s, clock, failed);
    case Purge(now) => PurgeFates(s, now, failed);
    case Create(r) => CreateFates(s, r, failed);
    case Find(r) => FindFates(s, r, failed);
    case Update(r) => UpdateFates(s, r, failed);
    case UpdateFails(r) => UpdateFailsFates(s, r, failed);
    case Delete(r) =>
      assert r !in failed;
      DeleteFates(s, r, failed);
  }

  lemma {:induction false} StepFates(s: State, step: Step, failed: set<nat>)
    requires Inv(s) && RowFates(s, failed) && FailuresOver(s, failed) && Enabled(s, step)
    ensures RowFates(Next(s, step), failed + FailedBy(step))
  {
    assert !step.DeleteFails? ==> failed + FailedBy(step) == failed;
    if step.DeleteFails? {
      DeleteFailsFates(s, step.r, failed);
    } else if IsLocal(step) {
      LocalFates(s, step, failed);
    } else {
      OtherFates(s, step, failed);
    }
  }

  lemma {:induction false} RunFates(s: State, steps: seq<Step>, t: State, failed: set<nat>)
    requires Inv(s) && RowFates(s, failed) && FailuresOver(s, failed) && Runs(s, steps, t)
    ensures RowFates(t, failed + DeleteFailures(steps))
    decreases |steps|
  {
    if |steps| == 0 {
      assert failed + {} == failed;
    } else {
      var more := failed + FailedBy(steps[0]);
      InvStep(s, steps[0]);
      StepFates(s, steps[0], failed);
      FailuresStay(s, steps[0], failed);
      RunFates(Next(s, steps[0]), steps[1..], t, more);
      assert more + DeleteFailures(steps[1..]) == failed + DeleteFailures(steps);
    }
  }

  lemma {:induction false} InitFates(s: State)
    requires Init(s)
    ensures Inv(s) && RowFates(s, {}) && FailuresOver(s, {})
  {
    InvInit(s);
  }

  lemma {:induction false} FatesOfRun(s: State, steps: seq<Step>, t: State)
    requires Init(s) && Runs(s, steps, t)
    ensures Inv(t) && RowFates(t, DeleteFailures(steps)) && (NoPurge(steps) ==> !t.purged)
  {
    InitFates(s);
    InvRun(s, steps, t);
    HistoryFlags(s, steps, t);
    RunFates(s, steps, t, {});
    assert {} + DeleteFailures(steps) == DeleteFailures(steps);
  }

  lemma {:induction false} OwnersOfRows(t: State, failed: set<nat>)
    requires Inv(t) && RowFates(t, failed)
    ensures forall id :: id in t.table ==>
      && id in t.created && t.created[id].owner in t.requests
      && (t.requests[t.created[id].owner].pc != Done(Failed) || t.created[id].owner in failed)
  {
    forall id | id in t.table
      ensures id in t.created && t.created[id].owner in t.requests
      ensures t.requests[t.created[id].owner].pc != Done(Failed) || t.created[id].owner in failed
    {
      var r := t.created[id].owner;
      assert RowFate(t, t.requests[r], r in failed);
    }
  }

  /**
   A failed request leaves its row behind only if its own delete failed; without purge, exactly then. So a row
   that blocks a key belongs to a request that is not through, has recorded its result, or could not delete it.
   */
  lemma {:induction false} FailureFreesKey(s: State, steps: seq<Step>, t: State)
    requires Init(s) && Runs(s, steps, t)
    ensures forall r :: r in t.requests && GaveUp(t.requests[r]) ==>
      && (t.requests[r].record.value in t.table ==> r in DeleteFailures(steps))
      && (NoPurge(steps) ==> (t.requests[r].record.value in t.table <==> r in DeleteFailures(steps)))
    ensures forall id :: id in t.table ==>
      && id in t.created && t.created[id].owner in t.requests
      && (t.requests[t.created[id].owner].pc != Done(Failed) || t.created[id].owner in DeleteFailures(steps))
  {
    FatesOfRun(s, steps, t);
    forall r | r in t.requests && GaveUp(t.requests[r])
      ensures t.requests[r].record.value in t.table ==> r in DeleteFailures(steps)
      ensures NoPurge(steps) ==> (t.requests[r].record.value in t.table <==> r in DeleteFailures(steps))
    {
      assert RowFate(t, t.requests[r], r in DeleteFailures(steps));
    }
    OwnersOfRows(t, DeleteFailures(steps));
  }

  /** While the row of a failed request remains, its key is refused to every request that meets it. */
  lemma {:induction false} LeftRowBlocks(s: State, r: nat, r': nat)
    requires Inv(s) && r in s.requests && r' in s.requests && GaveUp(s.requests[r])
    requires s.requests[r].record.value in s.table && s.requests[r'].scope == s.requests[r].scope
    ensures s.requests[r'].pc.Creating? ==> Next(s, Create(r')) == Move(s, r', Conflicted)
    ensures At(s, r', Conflicted) ==>
      Next(s, Find(r')) == Move(s, r',
        Done(if s.requests[r'].hash == s.requests[r].hash then InProgress else BodyDiffers))
  {
    var id := s.requests[r].record.value;
    assert RowMatches(s.table[id], s.requests[r], s.created[id]);
    assert Holds(s.table, s.requests[r'].scope, id);
    if At(s, r', Conflicted) {
      var answer := FindAnswers(s, r');
    }
  }

  // ---------------------------------------------------------------- both conditions are needed

  const KEY := Scope("o", "u", "op", "key-0001")

  const RESULT := Result(201, "{}", None)

  function TwoRequests(): State {
    State(0, map[], 0, map[0 := Request(KEY, "h", Ready, None, false), 1 := Request(KEY, "h", Ready, None, false)],
      map[], false, false)
  }

  ghost predicate BothWorked(t: State) {
    0 in t.requests && 1 in t.requests && t.requests[0].worked && t.requests[1].worked &&
      t.requests[0].scope == t.requests[1].scope
  }

  lemma {:induction false} RunsThen(s: State, steps: seq<Step>, t: State, step: Step)
    requires Runs(s, steps, t) && Enabled(t, step)
    ensures Runs(s, steps + [step], Next(t, step))
    decreases |steps|
  {
    if |steps| == 0 {
      assert [step][1..] == [];
    } else {
      RunsThen(Next(s, steps[0]), steps[1..], t, step);
      assert (steps + [step])[1..] == steps[1..] + [step];
    }
  }

  /** The first request has inserted its row and its work has returned. */
  lemma {:induction false} FirstWorks() returns (steps: seq<Step>, t: State)
    ensures Runs(TwoRequests(), steps, t) && NoPurge(steps) && UpdatesSucceed(steps)
    ensures t == State(0, map[0 := Record(KEY, "h", EnCours, None, None, None, RETENTION_MS)], 1,
      map[0 := Request(KEY, "h", Completing(RESULT), Some(0), true), 1 := Request(KEY, "h", Ready, None, false)],
      map[0 := Creation(0, 0, 0, RETENTION_MS)], false, false)
  {
    var s := TwoRequests();
    var s1 := Next(s, Begin(0));
    assert !KeyTaken(s1.table, KEY);
    var s2 := Next(s1, Create(0));
    t := Next(s2, WorkReturns(0, RESULT));
    RunsThen(s, [], s, Begin(0));
    RunsThen(s, [Begin(0)], s1, Create(0));
    RunsThen(s, [Begin(0), Create(0)], s2, WorkReturns(0, RESULT));
    steps := [Begin(0), Create(0)] + [WorkReturns(0, RESULT)];
    assert [Begin(0)] + [Create(0)] == [Begin(0), Create(0)];
  }

  /** From a state whose table is free of the key, the second request inserts a row and works. */
  lemma {:induction false} SecondWorks(steps: seq<Step>, s: State) returns (steps': seq<Step>, t: State)
    requires Runs(TwoRequests(), steps, s) && s.table == map[]
    requires s.requests.Keys == {0, 1} && s.requests[0].worked && s.requests[0].scope == KEY
    requires s.requests[1] == Request(KEY, "h", Ready, None, false)
    ensures Runs(TwoRequests(), steps', t) && BothWorked(t)
    ensures NoPurge(steps) ==> NoPurge(steps')
    ensures UpdatesSucceed(steps) ==> UpdatesSucceed(steps')
  {
    var s1 := Next(s, Begin(1));
    RunsThen(TwoRequests(), steps, s, Begin(1));
    assert !KeyTaken(s1.table, KEY);
    var s2 := Next(s1, Create(1));
    RunsThen(TwoRequests(), steps + [Begin(1)], s1, Create(1));
    t := Next(s2, WorkReturns(1, RESULT));
    RunsThen(TwoRequests(), steps + [Begin(1)] + [Create(1)], s2, WorkReturns(1, RESULT));
    steps' := steps + [Begin(1)] + [Create(1)] + [WorkReturns(1, RESULT)];
  }

  /** If the completing update fails, the key is freed although the work returned, and it is done again. */
  lemma {:induction false} FailedUpdateRepeatsWork() returns (steps: seq<Step>, t: State)
    ensures Init(TwoRequests()) && Runs(TwoRequests(), steps, t) && NoPurge(steps) && BothWorked(t)
  {
    var before, s := FirstWorks();
    var s1 := Next(s, UpdateFails(0));
    RunsThen(TwoRequests(), before, s, UpdateFails(0));
    var s2 := Next(s1, Delete(0));
    RunsThen(TwoRequests(), before + [UpdateFails(0)], s1, Delete(0));
    steps, t := SecondWorks(before + [UpdateFails(0)] + [Delete(0)], s2);
  }

  /** A run and three more steps. */
  lemma {:induction false} RunsThenThree(s: State, steps: seq<Step>, t: State, a: Step, b: Step, c: Step)
    returns (steps': seq<Step>, t': State)
    requires Runs(s, steps, t) && Enabled(t, a) && Enabled(Next(t, a), b) && Enabled(Next(Next(t, a), b), c)
    ensures steps' == steps + [a] + [b] + [c] && t' == Next(Next(Next(t, a), b), c)
    ensures Runs(s, steps', t')
    ensures NoPurge(steps) && !a.Purge? && !b.Purge? && !c.Purge? ==> NoPurge(steps')
  {
    RunsThen(s, steps, t, a);
    RunsThen(s, steps + [a], Next(t, a), b);
    RunsThen(s, steps + [a] + [b], Next(Next(t, a), b), c);
    steps', t' := steps + [a] + [b] + [c], Next(Next(Next(t, a), b), c);
  }

  /** The first request works and fails. */
  lemma {:induction false} FirstFails() returns (s1: State, s2: State, t: State)
    ensures Enabled(TwoRequests(), Begin(0)) && s1 == Next(TwoRequests(), Begin(0))
    ensures Enabled(s1, Create(0)) && s2 == Next(s1, Create(0))
    ensures Enabled(s2, WorkThrows(0)) && t == Next(s2, WorkThrows(0))
    ensures t == State(0, map[0 := Record(KEY, "h", EnCours, None, None, None, RETENTION_MS)], 1,
      map[0 := Request(KEY, "h", Failing, Some(0), false), 1 := Request(KEY, "h", Ready, None, false)],
      map[0 := Creation(0, 0, 0, RETENTION_MS)], false, false)
  {
    s1 := Next(TwoRequests(), Begin(0));
    assert !KeyTaken(s1.table, KEY);
    s2 := Next(s1, Create(0));
    t := Next(s2, WorkThrows(0));
  }

  /** The first request has failed and could not delete its row. */
  lemma {:induction false} FirstLeavesRow() returns (steps: seq<Step>, t: State)
    ensures Runs(TwoRequests(), steps, t) && NoPurge(steps)
    ensures 0 in t.requests && 1 in t.requests && t.requests[1] == Request(KEY, "h", Ready, None, false)
    ensures GaveUp(t.requests[0]) && t.requests[0].record.value in t.table
    ensures t.requests[0].scope == KEY && t.requests[0].hash == "h"
  {
    var s1, s2, s := FirstFails();
    var before, s' := RunsThenThree(TwoRequests(), [], TwoRequests(), Begin(0), Create(0), WorkThrows(0));
    t := Next(s, DeleteFails(0));
    RunsThen(TwoRequests(), before, s, DeleteFails(0));
    steps := before + [DeleteFails(0)];
  }

  /** Request 0 has failed and left its row; request 1 calls with the same key and body. */
  ghost predicate Blocked(s: State) {
    && Inv(s) && 0 in s.requests && 1 in s.requests
    && GaveUp(s.requests[0]) && s.requests[0].record.value in s.table
    && s.requests[0].scope == s.requests[1].scope == KEY && s.requests[0].hash == s.requests[1].hash == "h"
  }

  lemma {:induction false} BlockedBegin(s: State)
    requires Blocked(s) && At(s, 1, Ready)
    ensures Blocked(Next(s, Begin(1))) && Next(s, Begin(1)).requests[1].pc.Creating?
  {
    InvStep(s, Begin(1));
  }

  lemma {:induction false} BlockedCreate(s: State)
    requires Blocked(s) && s.requests[1].pc.Creating?
    ensures Blocked(Next(s, Create(1))) && At(Next(s, Create(1)), 1, Conflicted)
  {
    LeftRowBlocks(s, 0, 1);
    InvStep(s, Create(1));
  }

  lemma {:induction false} BlockedFind(s: State)
    requires Blocked(s) && At(s, 1, Conflicted)
    ensures Blocked(Next(s, Find(1))) && At(Next(s, Find(1)), 1, Done(InProgress))
  {
    LeftRowBlocks(s, 0, 1);
    InvStep(s, Find(1));
  }

  /** A request that calls again while the row of a failed one remains is told that the work goes on. */
  lemma {:induction false} SecondIsRefused(s: State) returns (s1: State, s2: State, t: State)
    requires Blocked(s) && At(s, 1, Ready)
    ensures Enabled(s, Begin(1)) && s1 == Next(s, Begin(1))
    ensures Enabled(s1, Create(1)) && s2 == Next(s1, Create(1))
    ensures Enabled(s2, Find(1)) && t == Next(s2, Find(1))
    ensures Blocked(t) && At(t, 1, Done(InProgress))
  {
    BlockedBegin(s);
    s1 := Next(s, Begin(1));
    BlockedCreate(s1);
    s2 := Next(s1, Create(1));
    BlockedFind(s2);
    t := Next(s2, Find(1));
  }

  /** If the delete after a failed work fails too, the key stays blocked: the next call is told the work goes on. */
  lemma {:induction false} FailedDeleteBlocksKey() returns (steps: seq<Step>, t: State)
    ensures Init(TwoRequests()) && Runs(TwoRequests(), steps, t) && NoPurge(steps)
    ensures 0 in t.requests && 1 in t.requests && t.requests[0].pc == Done(Failed) &&
      t.requests[1].pc == Done(InProgress)
  {
    var start := TwoRequests();
    var before, s := FirstLeavesRow();
    InvInit(start);
    InvRun(start, before, s);
    var s1, s2: State;
    s1, s2, t := SecondIsRefused(s);
    var t': State;
    steps, t' := RunsThenThree(start, before, s, Begin(1), Create(1), Find(1));
  }

  /** If the work outlasts the retention, the purge removes its row and the work is done again. */
  lemma {:induction false} PurgeRepeatsWork() returns (steps: seq<Step>, t: State)
    ensures Init(TwoRequests()) && Runs(TwoRequests(), steps, t) && UpdatesSucceed(steps) && BothWorked(t)
  {
    var before, s := FirstWorks();
    var late := RETENTION_MS + 1;
    var s1 := Next(s, Tick(late));
    RunsThen(TwoRequests(), before, s, Tick(late));
    var s2 := Next(s1, Purge(late));
    RunsThen(TwoRequests(), before + [Tick(late)], s1, Purge(late));
    assert s2.table == map[];
    steps, t := SecondWorks(before + [Tick(late)] + [Purge(late)], s2);
  }
}
