/** Both ends together: what is handed on again after a crash ends as one row. */
module Delivery {
  import opened Wrappers
  import opened AuditRecords
  import opened ShipperJournal
  import opened ShipperVerdicts
  import LogIngest

  predicate IsAccepted(e: Effect) {
    e.Handled? && e.how == Accepted
  }

  /** The producer event id a record is posted with. */
  function IdOf(ids: (nat, Span) -> string, e: Effect): string
    requires e.Handled?
  {
    ids(e.log, e.span)
  }

  /** Every acceptance the shipper saw was the answer to a request of the receiver's run. */
  ghost predicate Answered(journal: seq<Effect>, ids: (nat, Span) -> string, end: LogIngest.Store) {
    forall k :: 0 <= k < |journal| && IsAccepted(journal[k]) ==> HasAnswer(end, IdOf(ids, journal[k]))
  }

  ghost predicate HasAnswer(end: LogIngest.Store, id: string) {
    exists i :: 0 <= i < |end.requests| && LogIngest.Answered(end.requests[i]) && end.requests[i].producerId == Some(id)
  }

  lemma {:induction false} AnswersStayTrue(s: LogIngest.Store, actions: seq<LogIngest.Action>)
    requires LogIngest.Consistent(s) && LogIngest.AnswersHold(s) && LogIngest.IsRun(s, actions) && LogIngest.NoPurge(actions)
    ensures LogIngest.Consistent(LogIngest.After(s, actions)) && LogIngest.AnswersHold(LogIngest.After(s, actions))
    decreases |actions|
  {
    if actions != [] {
      LogIngest.ConsistentHolds(s, actions[0]);
      AnswersStayTrue(LogIngest.Step(s, actions[0]), actions[1..]);
    }
  }

  /**
   Over any number of shipper processes, ended by crashes anywhere, against a
   receiver that interleaves their requests and loses races in any way: each
   record below the saved offset is exactly one row, however often it was sent,
   unless its bytes or its last answer say that it is dead-lettered or blank.
   */
  lemma EachRecordIsOneRow(
    logs: Logs, start: Cursor, content: seq<byte> -> Content, lives: seq<seq<Effect>>, ids: (nat, Span) -> string,
    s: LogIngest.Store, actions: seq<LogIngest.Action>, k: nat
  ) returns (i: nat)
    requires Lives(logs, start, lives) && forall p :: 0 <= p < |lives| ==> Earned(logs, content, [], lives[p])
    requires LogIngest.Consistent(s) && LogIngest.AnswersHold(s) && LogIngest.IsRun(s, actions) && LogIngest.NoPurge(actions)
    requires Answered(Whole(lives), ids, LogIngest.After(s, actions))
    requires k < |Passed(start, Whole(lives))|
    ensures i < |Whole(lives)| && Whole(lives)[i].Handled?
    ensures Passed(start, Whole(lives))[k] == (Whole(lives)[i].log, Whole(lives)[i].span)
    ensures Whole(lives)[i].log in logs && Deserved(logs[Whole(lives)[i].log], content, Whole(lives)[i])
    ensures
      var e := Whole(lives)[i];
      || IsOneRow(LogIngest.After(s, actions), IdOf(ids, e))
      || !Postable(logs[e.log], content, e.span)
      || (e.answers != [] && Rejects(e.answers[|e.answers| - 1]))
  {
    var all, end := Whole(lives), LogIngest.After(s, actions);
    i := PassedWasHandled(start, all, k);
    LivesAreEarned(logs, start, content, lives);
    assert EarnedAt(logs, content, all, i + 1);
    if IsAccepted(all[i]) {
      AnswersStayTrue(s, actions);
      AcceptedIsOneRow(end, IdOf(ids, all[i]));
    }
  }

  ghost predicate IsOneRow(end: LogIngest.Store, id: string) {
    exists r :: LogIngest.Holds(end, id, r) && forall q :: LogIngest.Holds(end, id, q) ==> q == r
  }

  lemma AcceptedIsOneRow(end: LogIngest.Store, id: string)
    requires LogIngest.Consistent(end) && LogIngest.AnswersHold(end) && HasAnswer(end, id)
    ensures IsOneRow(end, id)
  {
    var i :| 0 <= i < |end.requests| && LogIngest.Answered(end.requests[i]) && end.requests[i].producerId == Some(id);
    assert LogIngest.Holds(end, id, end.requests[i].progress.answer.row);
  }

  /** A record sent twice, by one process or by two, is answered with one and the same row. */
  lemma ResendingAddsNoRow(s: LogIngest.Store, actions: seq<LogIngest.Action>, id: string, i: nat, j: nat)
    requires LogIngest.Consistent(s) && LogIngest.AnswersHold(s) && LogIngest.IsRun(s, actions) && LogIngest.NoPurge(actions)
    requires var requests := LogIngest.After(s, actions).requests;
             && i < |requests| && j < |requests| && LogIngest.Answered(requests[i]) && LogIngest.Answered(requests[j])
             && requests[i].producerId == Some(id) == requests[j].producerId
    ensures var requests := LogIngest.After(s, actions).requests;
            requests[i].progress.answer.row == requests[j].progress.answer.row
  {
    AnswersStayTrue(s, actions);
    var end := LogIngest.After(s, actions);
    assert LogIngest.Holds(end, id, end.requests[i].progress.answer.row);
    assert LogIngest.Holds(end, id, end.requests[j].progress.answer.row);
  }
}
