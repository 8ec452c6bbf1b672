/**
 The receiving end: requests that look an event up, insert it and commit, in any
 interleaving, over a table whose producer_event_id is unique.
 */
module LogIngest {
  import opened Wrappers

  /** What the response says: 201 with a new row, 200 with an existing one, 422, or a 5xx. */
  datatype Answer = Created(row: nat) | Existing(row: nat) | Unprocessable | ServerError

  datatype Progress = Arrived | NotFound | Conflicted | Done(answer: Answer)

  datatype Request = Request(producerId: Option<string>, progress: Progress)

  /** Rows by primary key, each with its producer_event_id. */
  datatype Store = Store(rows: map<nat, Option<string>>, nextRow: nat, requests: seq<Request>)

  /** How a commit can fail besides violating the unique constraint. */
  datatype Fault = NoFault | DataError | OtherIntegrityError

  datatype Action =
    | Arrive(producerId: Option<string>)
    | Lookup(i: nat)
    | Commit(i: nat, fault: Fault)
    | Requery(i: nat)
    | Purge(row: nat)

  ghost predicate Holds(s: Store, producerId: string, row: nat) {
    row in s.rows && s.rows[row] == Some(producerId)
  }

  /** The unique constraint: enforced by the database on every commit. */
  ghost predicate Unique(rows: map<nat, Option<string>>) {
    forall r, q :: r in rows && q in rows && rows[r].Some? && rows[r] == rows[q] ==> r == q
  }

  predicate Stored(s: Store, producerId: string) {
    exists r :: r in s.rows && s.rows[r] == Some(producerId)
  }

  ghost function TheRow(s: Store, producerId: string): (r: nat)
    requires Stored(s, producerId)
    ensures Holds(s, producerId, r)
  {
    var r :| r in s.rows && s.rows[r] == Some(producerId);
    r
  }

  predicate Enabled(s: Store, a: Action) {
    match a
    case Arrive(_) => true
    case Lookup(i) => i < |s.requests| && s.requests[i].progress.Arrived?
    case Commit(i, _) => i < |s.requests| && s.requests[i].progress.NotFound?
    case Requery(i) => i < |s.requests| && s.requests[i].progress.Conflicted?
    case Purge(row) => row in s.rows
  }

  function Move(s: Store, i: nat, progress: Progress): Store
    requires i < |s.requests|
  {
    s.(requests := s.requests[i := s.requests[i].(progress := progress)])
  }

  ghost function Step(s: Store, a: Action): Store
    requires Enabled(s, a)
  {
    match a
    case Arrive(producerId) => s.(requests := s.requests + [Request(producerId, Arrived)])
    case Lookup(i) =>
      var id := s.requests[i].producerId;
      if id.Some? && Stored(s, id.value) then Move(s, i, Done(Existing(TheRow(s, id.value))))
      else Move(s, i, NotFound)
    case Commit(i, fault) =>
      var id := s.requests[i].producerId;
      if fault.DataError? then Move(s, i, Done(Unprocessable))
      else if fault.OtherIntegrityError? || (id.Some? && Stored(s, id.value)) then
        Move(s, i, if id.None? then Done(ServerError) else Conflicted)
      else
        Move(s, i, Done(Created(s.nextRow))).(rows := s.rows[s.nextRow := id], nextRow := s.nextRow + 1)
    case Requery(i) =>
      var id := s.requests[i].producerId;
      if id.Some? && Stored(s, id.value) then Move(s, i, Done(Existing(TheRow(s, id.value))))
      else Move(s, i, Done(ServerError))
    case Purge(row) => s.(rows := s.rows - {row})
  }

  ghost predicate IsRun(s: Store, actions: seq<Action>)
    decreases |actions|
  {
    actions != [] ==> Enabled(s, actions[0]) && IsRun(Step(s, actions[0]), actions[1..])
  }

  ghost function After(s: Store, actions: seq<Action>): Store
    requires IsRun(s, actions)
    decreases |actions|
  {
    if actions == [] then s else After(Step(s, actions[0]), actions[1..])
  }

  predicate Answered(r: Request) {
    r.progress.Done? && (r.progress.answer.Created? || r.progress.answer.Existing?)
  }

  ghost predicate Consistent(s: Store) {
    && Unique(s.rows)
    && (forall r :: r in s.rows ==> r < s.nextRow)
    && (forall i :: 0 <= i < |s.requests| && Answered(s.requests[i]) ==> s.requests[i].progress.answer.row < s.nextRow)
    && (forall i :: 0 <= i < |s.requests| && s.requests[i].progress.Conflicted? ==> s.requests[i].producerId.Some?)
    && (forall i, j :: 0 <= i < j < |s.requests| && IsCreated(s.requests[i]) && IsCreated(s.requests[j])
          ==> s.requests[i].progress.answer.row != s.requests[j].progress.answer.row)
  }

  predicate IsCreated(r: Request) {
    r.progress.Done? && r.progress.answer.Created?
  }

  /** Every answer names a row that holds the request's own event. */
  ghost predicate AnswersHold(s: Store) {
    forall i :: 0 <= i < |s.requests| && Answered(s.requests[i]) && s.requests[i].producerId.Some? ==>
      Holds(s, s.requests[i].producerId.value, s.requests[i].progress.answer.row)
  }

  lemma ConsistentAfterCommit(s: Store, i: nat, fault: Fault)
    requires Consistent(s) && Enabled(s, Commit(i, fault))
    ensures Consistent(Step(s, Commit(i, fault)))
    ensures AnswersHold(s) ==> AnswersHold(Step(s, Commit(i, fault)))
  {
    var next := Step(s, Commit(i, fault));
    forall k | 0 <= k < |next.requests| && k != i ensures next.requests[k] == s.requests[k] {
    }
    var id := s.requests[i].producerId;
    assert id.Some? && !Stored(s, id.value) ==> forall r :: r in s.rows ==> s.rows[r] != id;
  }

  lemma ConsistentAfterAnswer(s: Store, a: Action)
    requires Consistent(s) && Enabled(s, a) && !a.Commit?
    ensures Consistent(Step(s, a))
    ensures AnswersHold(s) && !a.Purge? ==> AnswersHold(Step(s, a))
  {
  }

  lemma ConsistentHolds(s: Store, a: Action)
    requires Consistent(s) && Enabled(s, a)
    ensures Consistent(Step(s, a))
    ensures AnswersHold(s) && !a.Purge? ==> AnswersHold(Step(s, a))
  {
    if a.Commit? {
      ConsistentAfterCommit(s, a.i, a.fault);
    } else {
      ConsistentAfterAnswer(s, a);
    }
  }

  ghost predicate NoPurge(actions: seq<Action>) {
    forall i :: 0 <= i < |actions| ==> !actions[i].Purge?
  }

  /** However requests interleave, and whatever is purged, an event id has at most one row. */
  lemma {:induction false} AtMostOneRow(s: Store, actions: seq<Action>, id: string, r: nat, q: nat)
    requires Consistent(s) && IsRun(s, actions)
    requires Holds(After(s, actions), id, r) && Holds(After(s, actions), id, q)
    ensures r == q
    decreases |actions|
  {
    if actions != [] {
      ConsistentHolds(s, actions[0]);
      AtMostOneRow(Step(s, actions[0]), actions[1..], id, r, q);
    }
  }

  /**
   Between purges, all requests that carry one event id and are answered with a
   row are answered with the same row, and at most one of them created it.
   */
  lemma {:induction false} DuplicatesGetOneAnswer(s: Store, actions: seq<Action>, i: nat, j: nat)
    requires Consistent(s) && AnswersHold(s) && IsRun(s, actions) && NoPurge(actions)
    requires
      var end := After(s, actions);
      && i < j < |end.requests| && Answered(end.requests[i]) && Answered(end.requests[j])
      && end.requests[i].producerId.Some? && end.requests[i].producerId == end.requests[j].producerId
    ensures
      var end := After(s, actions);
      && end.requests[i].progress.answer.row == end.requests[j].progress.answer.row
      && Holds(end, end.requests[i].producerId.value, end.requests[i].progress.answer.row)
      && !(IsCreated(end.requests[i]) && IsCreated(end.requests[j]))
    decreases |actions|
  {
    if actions != [] {
      ConsistentHolds(s, actions[0]);
      DuplicatesGetOneAnswer(Step(s, actions[0]), actions[1..], i, j);
    }
  }

  /** A lost insert race is answered with the winner's row as long as that row is not purged. */
  lemma LostRaceFindsTheWinner(s: Store, i: nat)
    requires Consistent(s) && Enabled(s, Commit(i, NoFault))
    requires s.requests[i].producerId.Some? && Stored(s, s.requests[i].producerId.value)
    ensures
      var lost := Step(s, Commit(i, NoFault));
      && Enabled(lost, Requery(i)) && lost.rows == s.rows
      && Step(lost, Requery(i)).requests[i].progress == Done(Existing(TheRow(s, s.requests[i].producerId.value)))
  {
    var id := s.requests[i].producerId.value;
    var lost := Step(s, Commit(i, NoFault));
    var r := TheRow(s, id);
    assert Holds(lost, id, r);
    assert Stored(lost, id);
    assert Holds(lost, id, TheRow(lost, id));
  }

  /** No run without a purge changes or drops a row. */
  lemma {:induction false} RowsStay(s: Store, actions: seq<Action>, row: nat)
    requires Consistent(s) && IsRun(s, actions) && NoPurge(actions) && row in s.rows
    ensures row in After(s, actions).rows && After(s, actions).rows[row] == s.rows[row]
    decreases |actions|
  {
    if actions != [] {
      ConsistentHolds(s, actions[0]);
      RowsStay(Step(s, actions[0]), actions[1..], row);
    }
  }

  /**
   A request that nothing interferes with is answered with a row of its event:
   a new one if the event has none, the one it has otherwise; no other row
   changes.
   */
  lemma OneRequestIsAnswered(s: Store, id: string) returns (actions: seq<Action>)
    requires Consistent(s)
    ensures IsRun(s, actions) && NoPurge(actions)
    ensures
      var (end, i) := (After(s, actions), |s.requests|);
      && |end.requests| == i + 1 && Answered(end.requests[i]) && end.requests[i].producerId == Some(id)
      && Holds(end, id, end.requests[i].progress.answer.row)
      && (IsCreated(end.requests[i]) <==> !Stored(s, id))
      && (Stored(s, id) ==> end.rows == s.rows)
      && (!Stored(s, id) ==> end.rows == s.rows[s.nextRow := Some(id)] && s.nextRow !in s.rows)
  {
    var i := |s.requests|;
    var arrived := Step(s, Arrive(Some(id)));
    var looked := Step(arrived, Lookup(i));
    var none: seq<Action> := [];
    assert forall r :: Holds(arrived, id, r) <==> Holds(s, id, r);
    if Stored(s, id) {
      actions := [Arrive(Some(id)), Lookup(i)];
      assert actions[1..] == [Lookup(i)] && [Lookup(i)][1..] == none;
      assert IsRun(looked, none) && IsRun(arrived, [Lookup(i)]) && After(arrived, [Lookup(i)]) == looked;
      assert Holds(arrived, id, TheRow(arrived, id));
    } else {
      var commit := Commit(i, NoFault);
      actions := [Arrive(Some(id)), Lookup(i), commit];
      assert !Stored(looked, id);
      var done := Step(looked, commit);
      assert actions[1..] == [Lookup(i), commit] && [Lookup(i), commit][1..] == [commit] && [commit][1..] == none;
      assert IsRun(done, none) && IsRun(looked, [commit]) && After(looked, [commit]) == done;
      assert IsRun(arrived, [Lookup(i), commit]) && After(arrived, [Lookup(i), commit]) == done;
    }
  }

  /** An event that cannot be stored is refused, and stored nowhere. */
  lemma RefusedStoresNothing(s: Store, i: nat)
    requires Enabled(s, Commit(i, DataError))
    ensures
      var t := Step(s, Commit(i, DataError));
      t.rows == s.rows && t.requests[i].progress == Done(Unprocessable)
  {
  }
}
