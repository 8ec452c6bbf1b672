/** What becomes of a record, by its bytes and by the answers it got. */
module ShipperVerdicts {
  import opened Wrappers
  import opened AuditRecords
  import opened ShipperJournal

  /** What a line turns out to be once decoded, parsed and mapped. */
  datatype Content = Unshippable | Event

  predicate BlankLine(line: seq<byte>) {
    forall i :: 0 <= i < |line| ==> line[i] == 10 || line[i] == 13
  }

  predicate Accepts(r: Response) {
    r.Answered? && 200 <= r.code < 300
  }

  /** Authentication, rate limits, server errors and no answer at all are tried again. */
  predicate TriesAgain(r: Response) {
    r.Unanswered? || r.code in {401, 403, 429} || r.code >= 500
  }

  predicate Rejects(r: Response) {
    !Accepts(r) && !TriesAgain(r)
  }

  /** A whole, non-blank line that maps to an event: only such a record is posted. */
  predicate Postable(log: seq<byte>, content: seq<byte> -> Content, span: Span)
    requires span.start <= span.end <= |log|
  {
    span.kind.Line? && !BlankLine(log[span.start..span.end]) && content(log[span.start..span.end]).Event?
  }

  /**
   The record was dead-lettered for what it is or for its last answer, dropped
   without a trace if it is an empty line, and otherwise accepted by its last
   answer; every answer before the last asked to try again.
   */
  predicate Deserved(log: seq<byte>, content: seq<byte> -> Content, e: Effect)
    requires e.Handled?
  {
    && e.span.start <= e.span.end <= |log|
    && var line := log[e.span.start..e.span.end];
       && (e.answers != [] ==> Postable(log, content, e.span))
       && (forall i :: 0 <= i < |e.answers| - 1 ==> TriesAgain(e.answers[i]))
       && (e.how.DeadLettered? <==>
             || !e.span.kind.Line?
             || (!BlankLine(line) && content(line).Unshippable?)
             || (e.answers != [] && Rejects(e.answers[|e.answers| - 1])))
       && (e.how.Blank? <==> e.span.kind.Line? && BlankLine(line))
       && (e.how.Accepted? <==> e.answers != [] && Accepts(e.answers[|e.answers| - 1]))
  }

  lemma WithoutPosting(log: seq<byte>, content: seq<byte> -> Content, n: nat, span: Span)
    requires span.start <= span.end <= |log| && !Postable(log, content, span)
    ensures Deserved(log, content,
      Handled(n, span, if span.kind.Line? && BlankLine(log[span.start..span.end]) then Blank else DeadLettered, []))
  {
  }

  lemma LastAnswerDecides(
    log: seq<byte>, content: seq<byte> -> Content, n: nat, span: Span, answers: seq<Response>, last: Response
  )
    requires span.start <= span.end <= |log| && Postable(log, content, span)
    requires forall i :: 0 <= i < |answers| ==> TriesAgain(answers[i])
    ensures Accepts(last) ==> Deserved(log, content, Handled(n, span, Accepted, answers + [last]))
    ensures Rejects(last) ==> Deserved(log, content, Handled(n, span, DeadLettered, answers + [last]))
  {
  }

  /** Every record an offset moved past since `before` got what it deserved. */
  ghost predicate Earned(logs: Logs, content: seq<byte> -> Content, before: seq<Effect>, after: seq<Effect>) {
    forall k :: |before| <= k < |after| && Passes(after, k) ==> EarnedAt(logs, content, after, k)
  }

  ghost predicate EarnedAt(logs: Logs, content: seq<byte> -> Content, journal: seq<Effect>, k: nat)
    requires k < |journal| && Passes(journal, k)
  {
    var e := journal[k - 1];
    e.log in logs && Deserved(logs[e.log], content, e)
  }

  lemma EarnedComposes(logs: Logs, content: seq<byte> -> Content, a: seq<Effect>, b: seq<Effect>, c: seq<Effect>)
    requires a <= b <= c && Earned(logs, content, a, b) && Earned(logs, content, b, c)
    ensures Earned(logs, content, a, c)
  {
    forall k | |a| <= k < |c| && Passes(c, k) ensures EarnedAt(logs, content, c, k) {
      if k < |b| {
        assert b[k] == c[k] && (k > 0 ==> b[k - 1] == c[k - 1]);
        assert Passes(b, k) && EarnedAt(logs, content, b, k);
      }
    }
  }

  lemma OnlyHandled(logs: Logs, content: seq<byte> -> Content, a: seq<Effect>, b: seq<Effect>)
    requires a <= b && forall i :: |a| <= i < |b| ==> b[i].Handled?
    ensures Earned(logs, content, a, b)
  {
  }

  /** Taking up a log passes nothing. */
  lemma TakingUpPasses(logs: Logs, start: Cursor, content: seq<byte> -> Content, before: seq<Effect>, log: nat, offset: nat)
    requires Disciplined(logs, start, before) && TakesUp(logs, Durable(start, before), log, offset)
    ensures Earned(logs, content, before, before + [Saved(log, offset)])
  {
    if before != [] && before[|before| - 1].Handled? {
      LastHandledIsNext(logs, start, before);
    }
  }

  /** The journals of several processes, one after the other, are earned if each of them is. */
  lemma {:induction false} LivesAreEarned(logs: Logs, start: Cursor, content: seq<byte> -> Content, lives: seq<seq<Effect>>)
    requires Lives(logs, start, lives) && forall p :: 0 <= p < |lives| ==> Earned(logs, content, [], lives[p])
    ensures Earned(logs, content, [], Whole(lives))
  {
    if lives != [] {
      var before, life := Whole(lives[..|lives| - 1]), lives[|lives| - 1];
      LivesAreEarned(logs, start, content, lives[..|lives| - 1]);
      LivesAreOneRun(logs, start, lives[..|lives| - 1]);
      var whole := before + life;
      forall k | 0 <= k < |whole| && Passes(whole, k) ensures EarnedAt(logs, content, whole, k) {
        if k < |before| {
          assert Passes(before, k) && EarnedAt(logs, content, before, k);
        } else if k > |before| {
          assert Passes(life, k - |before|) && EarnedAt(logs, content, life, k - |before|);
        } else {
          FirstOfALife(logs, Durable(start, before), life);
          LastHandledIsNext(logs, start, before);
        }
      }
    }
  }

  lemma {:induction false} FirstOfALife(logs: Logs, start: Cursor, life: seq<Effect>)
    requires Disciplined(logs, start, life) && life != [] && life[0].Saved?
    ensures TakesUp(logs, start, life[0].log, life[0].offset)
    decreases |life|
  {
    if |life| > 1 {
      FirstOfALife(logs, start, life[..|life| - 1]);
    } else {
      assert life[..0] == [];
    }
  }
}
