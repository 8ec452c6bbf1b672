/**
 What the shipper has done that outlives a crash: records it handed on, and
 offsets it saved. A crash is a journal that simply stops.
 */
module ShipperJournal {
  import opened Wrappers
  import opened AuditRecords

  datatype How = Accepted | DeadLettered | Blank

  /** What a POST comes back with; without an answer the event may still have been stored. */
  datatype Response = Answered(code: nat) | Unanswered(stored: bool)

  /**
   A record is handed on with the answers it has had so far.
   Logs are numbered in the order in which they stood under the path; a log
   truncated in place is a new one under the old name.
   */
  datatype Effect =
    | Handled(log: nat, span: Span, how: How, answers: seq<Response>)
    | Saved(log: nat, offset: nat)

  /** The state file: which log, and how far. No log before the first start. */
  datatype Cursor = Cursor(log: Option<nat>, offset: nat)

  type Logs = map<nat, seq<byte>>

  function Durable(start: Cursor, journal: seq<Effect>): Cursor {
    if journal == [] then start
    else
      match journal[|journal| - 1]
      case Saved(log, offset) => Cursor(Some(log), offset)
      case Handled(_, _, _, _) => Durable(start, journal[..|journal| - 1])
  }

  /** A record is handed on only while it is the next one after the saved offset. */
  predicate MayHandle(logs: Logs, at: Cursor, log: nat, span: Span) {
    at.log == Some(log) && log in logs && NextRecord(logs[log], at.offset) == Some(span)
  }

  /** The offset moves past the record just handed on. */
  predicate Advances(at: Cursor, journal: seq<Effect>, log: nat, offset: nat) {
    && journal != [] && journal[|journal| - 1].Handled?
    && journal[|journal| - 1].log == log && at.log == Some(log)
    && journal[|journal| - 1].span.start == at.offset && journal[|journal| - 1].span.end == offset
  }

  /** A later log is taken up: from its start, or, before any log was known, from the saved offset. */
  predicate TakesUp(logs: Logs, at: Cursor, log: nat, offset: nat) {
    && log in logs && offset <= |logs[log]|
    && (if at.log.None? then offset == at.offset || offset == 0 else offset == 0 && at.log.value < log)
  }

  predicate May(logs: Logs, start: Cursor, journal: seq<Effect>, e: Effect) {
    var at := Durable(start, journal);
    match e
    case Handled(log, span, _, _) => MayHandle(logs, at, log, span)
    case Saved(log, offset) => Advances(at, journal, log, offset) || TakesUp(logs, at, log, offset)
  }

  ghost predicate Disciplined(logs: Logs, start: Cursor, journal: seq<Effect>) {
    journal != [] ==>
      var before := journal[..|journal| - 1];
      Disciplined(logs, start, before) && May(logs, start, before, journal[|journal| - 1])
  }

  // ---------------------------------------------------------------------
  // Stretches: from where to where each log was worked through

  datatype Stretch = Stretch(log: nat, from: nat, to: nat)

  function Trail(start: Cursor, journal: seq<Effect>): seq<Stretch> {
    if journal == [] then
      match start.log
      case None => []
      case Some(log) => [Stretch(log, start.offset, start.offset)]
    else
      var before := journal[..|journal| - 1];
      var trail := Trail(start, before);
      match journal[|journal| - 1]
      case Handled(_, _, _, _) => trail
      case Saved(log, offset) =>
        if trail != [] && Durable(start, before).log == Some(log)
        then trail[..|trail| - 1] + [trail[|trail| - 1].(to := offset)]
        else trail + [Stretch(log, offset, offset)]
  }

  /** This saved offset is the end of the record handed on right before it. */
  predicate Passes(journal: seq<Effect>, k: nat)
    requires k < |journal|
  {
    && journal[k].Saved? && k > 0 && journal[k - 1].Handled?
    && journal[k - 1].log == journal[k].log && journal[k - 1].span.end == journal[k].offset
  }

  /** The records the saved offsets have moved past, in order. */
  function Passed(start: Cursor, journal: seq<Effect>): seq<(nat, Span)> {
    if journal == [] then []
    else
      var before := journal[..|journal| - 1];
      match journal[|journal| - 1]
      case Handled(_, _, _, _) => Passed(start, before)
      case Saved(log, offset) =>
        if Advances(Durable(start, before), before, log, offset)
        then Passed(start, before) + [(log, before[|before| - 1].span)]
        else Passed(start, before)
  }

  /** Where shipping began: at the saved offset, or where the first log was taken up. */
  function Began(start: Cursor, journal: seq<Effect>): Cursor {
    if start.log.Some? || journal == [] then start
    else
      var before := Began(start, journal[..|journal| - 1]);
      match journal[|journal| - 1]
      case Handled(_, _, _, _) => before
      case Saved(log, offset) => if before.log.Some? then before else Cursor(Some(log), offset)
  }

  lemma {:induction false} BeganWithTheFirst(start: Cursor, journal: seq<Effect>)
    ensures Began(start, journal).log.None? <==> Durable(start, journal).log.None?
  {
    if journal != [] {
      BeganWithTheFirst(start, journal[..|journal| - 1]);
    }
  }

  function Tagged(log: nat, spans: seq<Span>): seq<(nat, Span)> {
    seq(|spans|, i requires 0 <= i < |spans| => (log, spans[i]))
  }

  function RecordsOf(logs: Logs, trail: seq<Stretch>): seq<(nat, Span)> {
    if trail == [] then []
    else
      var last := trail[|trail| - 1];
      RecordsOf(logs, trail[..|trail| - 1])
        + (if last.log in logs then Tagged(last.log, Between(logs[last.log], last.from, last.to)) else [])
  }

  /** The last stretch ends at the saved offset, on a record boundary. */
  ghost predicate TrailEndsAt(logs: Logs, start: Cursor, journal: seq<Effect>) {
    var at := Durable(start, journal);
    var trail := Trail(start, journal);
    && (at.log.None? <==> trail == [])
    && (trail != [] ==>
          var last := trail[|trail| - 1];
          && last.log in logs && at == Cursor(Some(last.log), last.to) && last.to <= |logs[last.log]|
          && Reaches(logs[last.log], last.from, last.to))
  }

  ghost predicate GoodStart(logs: Logs, start: Cursor) {
    start.log.Some? ==> start.log.value in logs && start.offset <= |logs[start.log.value]|
  }

  ghost predicate PassesTheTrail(logs: Logs, start: Cursor, journal: seq<Effect>) {
    && TrailEndsAt(logs, start, journal)
    && Passed(start, journal) == RecordsOf(logs, Trail(start, journal))
  }

  lemma AdvancedPasses(logs: Logs, start: Cursor, before: seq<Effect>, journal: seq<Effect>, log: nat, offset: nat)
    requires Disciplined(logs, start, before) && PassesTheTrail(logs, start, before)
    requires journal == before + [Saved(log, offset)] && Advances(Durable(start, before), before, log, offset)
    ensures PassesTheTrail(logs, start, journal)
  {
    var trail := Trail(start, before);
    var last := trail[|trail| - 1];
    SavedUnfolds(start, before, journal, log, offset);
    LastHandledIsNext(logs, start, before);
    hide Disciplined, Durable, Trail, Passed, NextRecord, Between, RecordsOf;
    OneRecordFurther(logs[log], last.from, last.to);
    StretchGrows(logs, trail, offset);
  }

  /** What one more saved offset adds. */
  lemma SavedUnfolds(start: Cursor, before: seq<Effect>, journal: seq<Effect>, log: nat, offset: nat)
    requires journal == before + [Saved(log, offset)]
    ensures Durable(start, journal) == Cursor(Some(log), offset)
    ensures
      var trail := Trail(start, before);
      Trail(start, journal) ==
        if trail != [] && Durable(start, before).log == Some(log)
        then trail[..|trail| - 1] + [trail[|trail| - 1].(to := offset)]
        else trail + [Stretch(log, offset, offset)]
    ensures Passed(start, journal) ==
      if Advances(Durable(start, before), before, log, offset)
      then Passed(start, before) + [(log, before[|before| - 1].span)]
      else Passed(start, before)
  {
    assert journal[..|before|] == before;
  }

  lemma TakenUpPasses(logs: Logs, start: Cursor, before: seq<Effect>, journal: seq<Effect>, log: nat, offset: nat)
    requires PassesTheTrail(logs, start, before)
    requires journal == before + [Saved(log, offset)] && !Advances(Durable(start, before), before, log, offset)
    requires TakesUp(logs, Durable(start, before), log, offset)
    ensures PassesTheTrail(logs, start, journal)
  {
    var trail := Trail(start, before);
    SavedUnfolds(start, before, journal, log, offset);
    assert Between(logs[log], offset, offset) == [] && Reaches(logs[log], offset, offset);
    assert (trail + [Stretch(log, offset, offset)])[..|trail|] == trail;
    hide Durable, Trail, Passed, Between, Reaches, Advances;
  }

  lemma HandledPasses(logs: Logs, start: Cursor, before: seq<Effect>, journal: seq<Effect>, e: Effect)
    requires PassesTheTrail(logs, start, before) && journal == before + [e] && e.Handled?
    ensures PassesTheTrail(logs, start, journal)
  {
    assert journal[..|before|] == before;
  }

  lemma StartPasses(logs: Logs, start: Cursor)
    requires GoodStart(logs, start)
    ensures PassesTheTrail(logs, start, [])
  {
    if start.log.Some? {
      assert Between(logs[start.log.value], start.offset, start.offset) == [];
      assert RecordsOf(logs, []) == [];
      assert Trail(start, [])[..0] == [];
    }
  }

  lemma {:induction false} EveryRunPasses(logs: Logs, start: Cursor, journal: seq<Effect>)
    requires GoodStart(logs, start) && Disciplined(logs, start, journal)
    ensures PassesTheTrail(logs, start, journal)
    decreases |journal|
  {
    if journal == [] {
      StartPasses(logs, start);
    } else {
      var before, e := journal[..|journal| - 1], journal[|journal| - 1];
      assert May(logs, start, before, e) && journal == before + [e];
      hide PassesTheTrail, Disciplined, Durable, Advances, TakesUp, MayHandle, GoodStart;
      EveryRunPasses(logs, start, before);
      match e {
        case Handled(_, _, _, _) => HandledPasses(logs, start, before, journal, e);
        case Saved(log, offset) =>
          if Advances(Durable(start, before), before, log, offset) {
            AdvancedPasses(logs, start, before, journal, log, offset);
          } else {
            TakenUpPasses(logs, start, before, journal, log, offset);
          }
      }
    }
  }

  /**
   Over any run with any crashes and failed writes, the records moved past are
   exactly the records of the stretches, each once and in order.
   */
  lemma PassedIsTheTrail(logs: Logs, start: Cursor, journal: seq<Effect>)
    requires GoodStart(logs, start) && Disciplined(logs, start, journal)
    ensures TrailEndsAt(logs, start, journal)
    ensures Passed(start, journal) == RecordsOf(logs, Trail(start, journal))
  {
    EveryRunPasses(logs, start, journal);
  }

  lemma LastHandledIsNext(logs: Logs, start: Cursor, journal: seq<Effect>)
    requires Disciplined(logs, start, journal) && journal != [] && journal[|journal| - 1].Handled?
    ensures
      var e := journal[|journal| - 1];
      MayHandle(logs, Durable(start, journal), e.log, e.span)
  {
  }

  lemma StretchGrows(logs: Logs, trail: seq<Stretch>, offset: nat)
    requires trail != []
    requires
      var last := trail[|trail| - 1];
      && last.log in logs && NextRecord(logs[last.log], last.to).Some?
      && NextRecord(logs[last.log], last.to).value.end == offset
      && Between(logs[last.log], last.from, offset)
           == Between(logs[last.log], last.from, last.to) + [NextRecord(logs[last.log], last.to).value]
    ensures
      var last := trail[|trail| - 1];
      RecordsOf(logs, trail[..|trail| - 1] + [last.(to := offset)])
        == RecordsOf(logs, trail) + [(last.log, NextRecord(logs[last.log], last.to).value)]
  {
    var last := trail[|trail| - 1];
    var grown := trail[..|trail| - 1] + [last.(to := offset)];
    assert grown[..|grown| - 1] == trail[..|trail| - 1];
    var shorter := Between(logs[last.log], last.from, last.to);
    var longer := Between(logs[last.log], last.from, offset);
    assert Tagged(last.log, longer) == Tagged(last.log, shorter) + [(last.log, longer[|longer| - 1])];
  }

  // ---------------------------------------------------------------------
  // Nothing is skipped, and at most the record in flight is repeated

  /** Every record below the saved offset of its stretch was handed on. */
  lemma {:induction false} PassedWasHandled(start: Cursor, journal: seq<Effect>, k: nat) returns (i: nat)
    requires k < |Passed(start, journal)|
    ensures i < |journal| && journal[i].Handled?
    ensures Passed(start, journal)[k] == (journal[i].log, journal[i].span)
    ensures i + 1 < |journal| && Passes(journal, i + 1)
    decreases |journal|
  {
    var before := journal[..|journal| - 1];
    if k < |Passed(start, before)| {
      i := PassedWasHandled(start, before, k);
    } else {
      i := |before| - 1;
    }
  }

  /** Everything handed on so far has been moved past, or is the one record next in line. */
  lemma {:induction false} HandledIsPassedOrNext(logs: Logs, start: Cursor, journal: seq<Effect>, i: nat)
    requires Disciplined(logs, start, journal) && i < |journal| && journal[i].Handled?
    ensures
      var e := journal[i];
      || (e.log, e.span) in Passed(start, journal)
      || MayHandle(logs, Durable(start, journal), e.log, e.span)
      || Abandoned(start, journal, i)
    decreases |journal|
  {
    var before := journal[..|journal| - 1];
    if i < |before| {
      assert before[i] == journal[i];
      HandledIsPassedOrNext(logs, start, before, i);
      if journal[|before|].Saved? && Advances(Durable(start, before), before, journal[|before|].log, journal[|before|].offset) {
        LastHandledIsNext(logs, start, before);
        assert Passed(start, journal)[|Passed(start, before)|] == (before[|before| - 1].log, before[|before| - 1].span);
      }
      AbandonedStays(start, journal, i);
    }
  }

  /** The log was left for another while this record was in flight. */
  ghost predicate Abandoned(start: Cursor, journal: seq<Effect>, i: nat)
    requires i < |journal| && journal[i].Handled?
  {
    exists k {:trigger journal[..k]} :: i < k < |journal| && journal[k].Saved? && journal[k].log != journal[i].log
      && Durable(start, journal[..k]) == Cursor(Some(journal[i].log), journal[i].span.start)
  }

  lemma AbandonedStays(start: Cursor, journal: seq<Effect>, i: nat)
    requires i + 1 < |journal| && journal[i].Handled?
    ensures Abandoned(start, journal[..|journal| - 1], i) ==> Abandoned(start, journal, i)
  {
    var before := journal[..|journal| - 1];
    if Abandoned(start, before, i) {
      var k :| i < k < |before| && before[k].Saved? && before[k].log != before[i].log
        && Durable(start, before[..k]) == Cursor(Some(before[i].log), before[i].span.start);
      assert before[..k] == journal[..k];
    }
  }

  // ---------------------------------------------------------------------
  // Order

  /** Positions in order: by log, then by offset; no log comes first. */
  predicate UpTo(a: Cursor, b: Cursor) {
    a.log.None? || (b.log.Some? && (a.log.value < b.log.value || (a.log == b.log && a.offset <= b.offset)))
  }

  lemma SavedMovesOn(logs: Logs, start: Cursor, journal: seq<Effect>)
    requires Disciplined(logs, start, journal) && journal != [] && journal[|journal| - 1].Saved?
    ensures var at := Durable(start, journal[..|journal| - 1]);
            UpTo(at, Durable(start, journal)) && (at.log.Some? ==> at != Durable(start, journal))
  {
    var before, e := journal[..|journal| - 1], journal[|journal| - 1];
    if Advances(Durable(start, before), before, e.log, e.offset) {
      LastHandledIsNext(logs, start, before);
    }
  }

  lemma {:induction false} SavedOffsetsOnlyAdvance(logs: Logs, start: Cursor, journal: seq<Effect>, k: nat)
    requires Disciplined(logs, start, journal) && k <= |journal|
    ensures UpTo(Durable(start, journal[..k]), Durable(start, journal))
    decreases |journal|
  {
    if k == |journal| {
      assert journal[..k] == journal;
    } else {
      var before := journal[..|journal| - 1];
      SavedOffsetsOnlyAdvance(logs, start, before, k);
      assert before[..k] == journal[..k];
      if journal[|journal| - 1].Saved? {
        SavedMovesOn(logs, start, journal);
      }
    }
  }

  /** The position of a record. */
  function PlaceOf(r: (nat, Span)): Cursor {
    Cursor(Some(r.0), r.1.start)
  }

  ghost predicate InOrder(records: seq<(nat, Span)>) {
    forall i, j :: 0 <= i < j < |records| ==> UpTo(PlaceOf(records[i]), PlaceOf(records[j])) && PlaceOf(records[i]) != PlaceOf(records[j])
  }

  ghost predicate AllBelow(records: seq<(nat, Span)>, at: Cursor) {
    forall i :: 0 <= i < |records| ==> UpTo(PlaceOf(records[i]), at) && PlaceOf(records[i]) != at
  }

  /** Over any run, whatever is lost: nothing is moved past twice, and what is, in order. */
  lemma {:induction false} NothingIsPassedTwice(logs: Logs, start: Cursor, journal: seq<Effect>)
    requires Disciplined(logs, start, journal)
    ensures InOrder(Passed(start, journal)) && AllBelow(Passed(start, journal), Durable(start, journal))
    decreases |journal|
  {
    if journal != [] {
      var before, e := journal[..|journal| - 1], journal[|journal| - 1];
      NothingIsPassedTwice(logs, start, before);
      if e.Saved? {
        SavedMovesOn(logs, start, journal);
        if Advances(Durable(start, before), before, e.log, e.offset) {
          LastHandledIsNext(logs, start, before);
        }
      }
    }
  }

  // ---------------------------------------------------------------------
  // Restarts

  lemma {:induction false} DurableComposes(start: Cursor, a: seq<Effect>, b: seq<Effect>)
    ensures Durable(start, a + b) == Durable(Durable(start, a), b)
    decreases |b|
  {
    if b == [] {
      assert a + b == a;
    } else {
      DurableComposes(start, a, b[..|b| - 1]);
      assert (a + b)[..|a + b| - 1] == a + b[..|b| - 1];
    }
  }

  /** What a restarted process does goes on where the last one's saved offset was: together they are one run. */
  lemma {:induction false} JournalsCompose(logs: Logs, start: Cursor, a: seq<Effect>, b: seq<Effect>)
    requires Disciplined(logs, start, a) && Disciplined(logs, Durable(start, a), b)
    ensures Disciplined(logs, start, a + b)
    ensures Passed(start, a + b) == Passed(start, a) + Passed(Durable(start, a), b)
    decreases |b|
  {
    hide TakesUp, MayHandle;
    if b == [] {
      assert a + b == a;
    } else {
      var init, e := b[..|b| - 1], b[|b| - 1];
      JournalsCompose(logs, start, a, init);
      assert (a + b)[..|a + b| - 1] == a + init;
      DurableComposes(start, a, init);
      if e.Saved? {
        AdvancesComposes(logs, start, a, init, e.log, e.offset);
      }
    }
  }

  lemma AdvancesComposes(logs: Logs, start: Cursor, a: seq<Effect>, b: seq<Effect>, log: nat, offset: nat)
    requires Disciplined(logs, start, a) && Disciplined(logs, Durable(start, a), b)
    requires May(logs, Durable(start, a), b, Saved(log, offset))
    ensures var at := Durable(start, a + b);
            Advances(at, a + b, log, offset) <==> Advances(Durable(Durable(start, a), b), b, log, offset)
    ensures Advances(Durable(start, a + b), a + b, log, offset) && b != [] ==> (a + b)[|a + b| - 1] == b[|b| - 1]
  {
    DurableComposes(start, a, b);
    if b == [] {
      assert a + b == a;
      if a != [] && a[|a| - 1].Handled? {
        LastHandledIsNext(logs, start, a);
      }
    }
  }

  /** Each process starts from the offset the ones before it saved. */
  ghost predicate Lives(logs: Logs, start: Cursor, lives: seq<seq<Effect>>) {
    lives != [] ==>
      var before := lives[..|lives| - 1];
      Lives(logs, start, before) && Disciplined(logs, Durable(start, Whole(before)), lives[|lives| - 1])
  }

  function Whole(lives: seq<seq<Effect>>): seq<Effect> {
    if lives == [] then [] else Whole(lives[..|lives| - 1]) + lives[|lives| - 1]
  }

  lemma {:induction false} LivesAreOneRun(logs: Logs, start: Cursor, lives: seq<seq<Effect>>)
    requires Lives(logs, start, lives)
    ensures Disciplined(logs, start, Whole(lives))
  {
    if lives != [] {
      LivesAreOneRun(logs, start, lives[..|lives| - 1]);
      JournalsCompose(logs, start, Whole(lives[..|lives| - 1]), lives[|lives| - 1]);
    }
  }

  /** One record is only ever handed on while the saved offset is right before it. */
  lemma HandledAtItsPlace(logs: Logs, start: Cursor, journal: seq<Effect>, i: nat)
    requires Disciplined(logs, start, journal) && i < |journal| && journal[i].Handled?
    ensures Durable(start, journal[..i]) == Cursor(Some(journal[i].log), journal[i].span.start)
    decreases |journal|
  {
    if i < |journal| - 1 {
      HandledAtItsPlace(logs, start, journal[..|journal| - 1], i);
      assert journal[..|journal| - 1][..i] == journal[..i];
    }
  }

  /**
   Over any number of processes, each ended by a crash or a stop anywhere: a
   record one of them handed on and a later one hands on again is, at every
   restart between the two, the one record right after the saved offset.
   */
  lemma RestartRepeatsOnlyTheNext(logs: Logs, start: Cursor, lives: seq<seq<Effect>>, p: nat, i: nat, j: nat)
    requires Lives(logs, start, lives) && p <= |lives|
    requires i < |Whole(lives[..p])| <= j < |Whole(lives)|
    requires var all := Whole(lives);
             && all[i].Handled? && all[j].Handled? && all[i].log == all[j].log && all[i].span == all[j].span
    ensures Durable(start, Whole(lives[..p])) == Cursor(Some(Whole(lives)[i].log), Whole(lives)[i].span.start)
  {
    var all, upto := Whole(lives), Whole(lives[..p]);
    LivesAreOneRun(logs, start, lives);
    WholeIsPrefix(lives, p);
    assert all[..|upto|] == upto && all[..j][..|upto|] == upto && upto[..i] == all[..i];
    hide Disciplined, Whole, Lives;
    HandledAtItsPlace(logs, start, all, i);
    HandledAtItsPlace(logs, start, all, j);
    DisciplinedPrefix(logs, start, all, j);
    DisciplinedPrefix(logs, start, all, |upto|);
    SavedOffsetsOnlyAdvance(logs, start, all[..j], |upto|);
    SavedOffsetsOnlyAdvance(logs, start, upto, i);
  }

  lemma {:induction false} WholeIsPrefix(lives: seq<seq<Effect>>, p: nat)
    requires p <= |lives|
    ensures Whole(lives[..p]) <= Whole(lives)
    decreases |lives|
  {
    if p == |lives| {
      assert lives[..p] == lives;
    } else {
      WholeIsPrefix(lives[..|lives| - 1], p);
      assert lives[..|lives| - 1][..p] == lives[..p];
    }
  }

  lemma {:induction false} DisciplinedPrefix(logs: Logs, start: Cursor, journal: seq<Effect>, k: nat)
    requires Disciplined(logs, start, journal) && k <= |journal|
    ensures Disciplined(logs, start, journal[..k])
    decreases |journal|
  {
    if k == |journal| {
      assert journal[..k] == journal;
    } else {
      DisciplinedPrefix(logs, start, journal[..|journal| - 1], k);
      assert journal[..|journal| - 1][..k] == journal[..k];
    }
  }
}
