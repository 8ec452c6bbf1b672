/**
 The shipper's main loop over a schedule: what stands under the path at each
 round, how much is read, which writes fail. Exactly which schedules lose records.
 */
module ShipperSchedule {
  import opened Wrappers
  import opened AuditRecords
  import opened ShipperJournal

  /**
   What the loop has between two rounds: the saved offset, the open file, where
   shipping began, and the records passed since.
   */
  datatype Tailer = Tailer(at: Cursor, open: Option<nat>, began: Cursor, passed: seq<(nat, Span)>)

  /**
   One round. `log` is what the path named when it was looked up: the open file,
   a later one in its place (`inPlace`, the file was truncated) or beside it
   (it was renamed). `saved`: the write that takes up a log succeeds.
   `readable`: so does opening it. `records`: how many are read on. `ended`: a
   drain came to its end, or to a signal after some progress, rather than to a
   failed write or a signal before any. `keep`: an offset without identity fits.
   A restart finds no file open.
   */
  datatype Round =
    | Missing
    | Restart
    | Found(log: nat, inPlace: bool, saved: bool, readable: bool, records: nat, ended: bool, keep: bool)

  function TakeUp(t: Tailer, log: nat, keep: bool): Tailer {
    var at := Cursor(Some(log), if t.at.log.None? && keep then t.at.offset else 0);
    t.(at := at, began := if t.began.log.None? then at else t.began)
  }

  /** Pass the next record of the log being worked on. */
  function ReadOne(logs: Logs, t: Tailer): Tailer {
    if t.at.log.None? || t.at.log.value !in logs then t
    else
      match NextRecord(logs[t.at.log.value], t.at.offset)
      case None => t
      case Some(span) => t.(at := t.at.(offset := span.end), passed := t.passed + [(t.at.log.value, span)])
  }

  function Read(logs: Logs, t: Tailer, records: nat): Tailer {
    if records == 0 then t else ReadOne(logs, Read(logs, t, records - 1))
  }

  /** The state a round takes up a log from, if it does and the state file can be written. */
  function Leaving(logs: Logs, t: Tailer, r: Round): Option<Tailer> {
    if !r.Found? || !r.saved || t.at.log == Some(r.log) then None
    else if t.open.None? || r.inPlace then Some(t)
    else if r.ended then Some(Read(logs, t, r.records))
    else None
  }

  function Poll(logs: Logs, t: Tailer, r: Round): Tailer {
    if r.Missing? then t
    else if r.Restart? then t.(open := None)
    else if t.at.log == Some(r.log) then
      if t.open.None? && !r.readable then t else Read(logs, t.(open := Some(r.log)), r.records)
    else if t.open.None? || r.inPlace then
      if !r.saved then t
      else if t.open.None? && !r.readable then TakeUp(t, r.log, r.keep)
      else Read(logs, TakeUp(t, r.log, r.keep).(open := Some(r.log)), r.records)
    else
      var drained := Read(logs, t, r.records);
      if !r.ended then drained
      else if r.saved then TakeUp(drained, r.log, r.keep).(open := None)
      else drained.(open := None)
  }

  function PollAll(logs: Logs, t: Tailer, rounds: seq<Round>): Tailer {
    if rounds == [] then t else Poll(logs, PollAll(logs, t, rounds[..|rounds| - 1]), rounds[|rounds| - 1])
  }

  /** The path goes from log to log in their order and never back. */
  predicate Possible(logs: Logs, t: Tailer, r: Round) {
    r.Found? ==>
      && r.log in logs && (t.at.log.Some? ==> t.at.log.value <= r.log)
      && (t.at.log.None? && r.keep ==> t.at.offset <= |logs[r.log]|)
  }

  ghost predicate PossibleAll(logs: Logs, t: Tailer, rounds: seq<Round>) {
    rounds != [] ==>
      var before := rounds[..|rounds| - 1];
      PossibleAll(logs, t, before) && Possible(logs, PollAll(logs, t, before), rounds[|rounds| - 1])
  }

  /** All that was ever written under a number. */
  function LogAt(logs: Logs, n: nat): seq<byte> {
    if n in logs then logs[n] else []
  }

  /**
   The round takes up a later log while the one it leaves has bytes it did not
   read, or while a log that stood under the path in between had any at all.
   */
  ghost predicate Loses(logs: Logs, t: Tailer, r: Round) {
    var from := Leaving(logs, t, r);
    && from.Some? && from.value.at.log.Some?
    && (from.value.at.offset < |LogAt(logs, from.value.at.log.value)| || SomethingBetween(logs, from.value.at.log.value, r.log))
  }

  ghost predicate SomethingBetween(logs: Logs, i: nat, j: nat) {
    exists k :: i < k < j && LogAt(logs, k) != []
  }

  // ---------------------------------------------------------------------
  // What ought to have been passed

  /** Where in a log shipping began. */
  function From(began: Cursor, n: nat): nat {
    if began.log == Some(n) then began.offset else 0
  }

  /** All records of the logs from where shipping began up to, and without, log n. */
  function Before(logs: Logs, began: Cursor, n: nat): seq<(nat, Span)> {
    if began.log.None? || n <= began.log.value then []
    else Before(logs, began, n - 1) + Tagged(n - 1, AllRecords(LogAt(logs, n - 1), From(began, n - 1)))
  }

  /**
   Everything has been passed: all records of every log that stood under the
   path before this one, a trailing fragment included, then those of this log
   up to the offset; in order, each once, nothing else.
   */
  ghost predicate Lossless(logs: Logs, t: Tailer) {
    if t.at.log.None? then t.passed == []
    else
      var n := t.at.log.value;
      t.passed == Before(logs, t.began, n) + Tagged(n, Between(LogAt(logs, n), From(t.began, n), t.at.offset))
  }

  ghost predicate WellPlaced(logs: Logs, t: Tailer) {
    && (t.began.log.None? <==> t.at.log.None?)
    && (t.at.log.None? ==> t.open.None? && t.passed == [] && t.began == t.at)
    && (t.open.Some? ==> t.open == t.at.log)
    && (t.at.log.Some? ==>
          var n := t.at.log.value;
          && n in logs && t.at.offset <= |logs[n]| && t.began.log.value <= n
          && Reaches(logs[n], From(t.began, n), t.at.offset))
    && (forall i :: 0 <= i < |t.passed| ==> PassedBefore(t.passed[i], t.at))
  }

  predicate PassedBefore(r: (nat, Span), at: Cursor) {
    at.log.Some? && (r.0 < at.log.value || (r.0 == at.log.value && r.1.start < at.offset))
  }

  // ---------------------------------------------------------------------
  // Reading keeps the balance

  lemma ReadOneKeeps(logs: Logs, t: Tailer)
    requires WellPlaced(logs, t)
    ensures var u := ReadOne(logs, t);
            && WellPlaced(logs, u) && u.at.log == t.at.log && u.open == t.open && u.began == t.began
            && (Lossless(logs, t) ==> Lossless(logs, u))
            && t.passed <= u.passed && (forall i :: |t.passed| <= i < |u.passed| ==> t.at.log == Some(u.passed[i].0))
  {
    if t.at.log.Some? && NextRecord(logs[t.at.log.value], t.at.offset).Some? {
      var n := t.at.log.value;
      var span := NextRecord(logs[n], t.at.offset).value;
      OneRecordFurther(logs[n], From(t.began, n), t.at.offset);
      var shorter := Between(logs[n], From(t.began, n), t.at.offset);
      var longer := Between(logs[n], From(t.began, n), span.end);
      assert Tagged(n, longer) == Tagged(n, shorter) + [(n, span)];
    }
  }

  lemma {:induction false} ReadKeeps(logs: Logs, t: Tailer, records: nat)
    requires WellPlaced(logs, t)
    ensures var u := Read(logs, t, records);
            && WellPlaced(logs, u) && u.at.log == t.at.log && u.open == t.open && u.began == t.began
            && (Lossless(logs, t) ==> Lossless(logs, u))
            && t.passed <= u.passed && (forall i :: |t.passed| <= i < |u.passed| ==> t.at.log == Some(u.passed[i].0))
  {
    if records > 0 {
      ReadKeeps(logs, t, records - 1);
      ReadOneKeeps(logs, Read(logs, t, records - 1));
    }
  }

  lemma {:induction false} NothingBetween(logs: Logs, began: Cursor, i: nat, j: nat)
    requires began.log.Some? && began.log.value <= i < j && !SomethingBetween(logs, i, j)
    ensures Before(logs, began, j) == Before(logs, began, i + 1)
  {
    if j > i + 1 {
      NothingBetween(logs, began, i, j - 1);
      assert LogAt(logs, j - 1) == [];
    }
  }

  /** Taking up the next log from the very end of the last one loses nothing. */
  lemma TakeUpKeeps(logs: Logs, t: Tailer, r: Round)
    requires WellPlaced(logs, t) && Possible(logs, t, r) && r.Found? && t.at.log != Some(r.log)
    ensures WellPlaced(logs, TakeUp(t, r.log, r.keep).(open := None))
    ensures Lossless(logs, t) && (t.at.log.Some? ==>
        t.at.offset == |LogAt(logs, t.at.log.value)| && !SomethingBetween(logs, t.at.log.value, r.log))
      ==> Lossless(logs, TakeUp(t, r.log, r.keep).(open := None))
  {
    var u := TakeUp(t, r.log, r.keep).(open := None);
    assert Between(logs[r.log], u.at.offset, u.at.offset) == [];
    if t.at.log.Some? && t.at.offset == |LogAt(logs, t.at.log.value)| && !SomethingBetween(logs, t.at.log.value, r.log) {
      var n := t.at.log.value;
      BetweenToTheEnd(logs[n], From(t.began, n));
      NothingBetween(logs, t.began, n, r.log);
    }
  }

  // ---------------------------------------------------------------------
  // A round that loses nothing keeps the balance

  lemma PollKeeps(logs: Logs, t: Tailer, r: Round)
    requires WellPlaced(logs, t) && Possible(logs, t, r)
    ensures WellPlaced(logs, Poll(logs, t, r))
    ensures Lossless(logs, t) && !Loses(logs, t, r) ==> Lossless(logs, Poll(logs, t, r))
  {
    if r.Found? && t.at.log == Some(r.log) {
      ReadKeeps(logs, t.(open := Some(r.log)), r.records);
    } else if r.Found? && (t.open.None? || r.inPlace) {
      TakeUpKeeps(logs, t, r);
      ReadKeeps(logs, TakeUp(t, r.log, r.keep).(open := Some(r.log)), r.records);
    } else if r.Found? {
      ReadKeeps(logs, t, r.records);
      TakeUpKeeps(logs, Read(logs, t, r.records), r);
    }
  }

  // ---------------------------------------------------------------------
  // A round that loses something loses it for good

  /** A record of a log that was left, and that was not passed. */
  ghost predicate Lost(logs: Logs, t: Tailer, r: (nat, Span)) {
    t.at.log.Some? && r.0 < t.at.log.value && r in Before(logs, t.began, t.at.log.value) && r !in t.passed
  }

  lemma LostIsNotLossless(logs: Logs, t: Tailer, r: (nat, Span))
    requires Lost(logs, t, r)
    ensures !Lossless(logs, t)
  {
  }

  lemma {:induction false} BeforeGrows(logs: Logs, began: Cursor, i: nat, j: nat)
    requires i <= j
    ensures Before(logs, began, i) <= Before(logs, began, j)
  {
    if i < j {
      BeforeGrows(logs, began, i, j - 1);
    }
  }

  lemma ReadKeepsLost(logs: Logs, t: Tailer, records: nat, r: (nat, Span))
    requires WellPlaced(logs, t) && Lost(logs, t, r)
    ensures Lost(logs, Read(logs, t, records), r)
  {
    ReadKeeps(logs, t, records);
  }

  lemma TakeUpKeepsLost(logs: Logs, t: Tailer, log: nat, keep: bool, r: (nat, Span))
    requires WellPlaced(logs, t) && Lost(logs, t, r) && t.at.log.value <= log
    ensures Lost(logs, TakeUp(t, log, keep), r)
  {
    BeforeGrows(logs, t.began, t.at.log.value, log);
  }

  lemma PollKeepsLost(logs: Logs, t: Tailer, r: Round, gone: (nat, Span))
    requires WellPlaced(logs, t) && Possible(logs, t, r) && Lost(logs, t, gone)
    ensures Lost(logs, Poll(logs, t, r), gone)
  {
    if r.Found? && t.at.log == Some(r.log) {
      ReadKeepsLost(logs, t.(open := Some(r.log)), r.records, gone);
    } else if r.Found? && (t.open.None? || r.inPlace) {
      var u := TakeUp(t, r.log, r.keep);
      TakeUpKeepsLost(logs, t, r.log, r.keep, gone);
      TakeUpKeeps(logs, t, r);
      ReadKeepsLost(logs, u.(open := Some(r.log)), r.records, gone);
    } else if r.Found? {
      ReadKeeps(logs, t, r.records);
      ReadKeepsLost(logs, t, r.records, gone);
      TakeUpKeepsLost(logs, Read(logs, t, r.records), r.log, r.keep, gone);
    }
  }

  lemma {:induction false} UnreadIsARecord(log: seq<byte>, s: nat, t: nat)
    requires Reaches(log, s, t) && t < |log|
    ensures NextRecord(log, t).Some? && NextRecord(log, t).value in AllRecords(log, s)
    decreases |log| - s
  {
    if s != t {
      UnreadIsARecord(log, NextRecord(log, s).value.end, t);
    }
  }

  lemma BeforeHolds(logs: Logs, began: Cursor, n: nat, log: nat, span: Span)
    requires began.log.Some? && began.log.value <= n < log && span in AllRecords(LogAt(logs, n), From(began, n))
    ensures (n, span) in Before(logs, began, log)
  {
    var spans := AllRecords(LogAt(logs, n), From(began, n));
    var i :| 0 <= i < |spans| && spans[i] == span;
    assert Before(logs, began, n + 1)[|Before(logs, began, n)| + i] == (n, span);
    BeforeGrows(logs, began, n + 1, log);
  }

  /** The record that a losing take-up leaves behind. */
  lemma LeavingLoses(logs: Logs, t: Tailer, log: nat, keep: bool) returns (gone: (nat, Span))
    requires WellPlaced(logs, t) && t.at.log.Some? && t.at.log.value < log
    requires t.at.offset < |LogAt(logs, t.at.log.value)| || SomethingBetween(logs, t.at.log.value, log)
    ensures Lost(logs, TakeUp(t, log, keep), gone)
  {
    var n := t.at.log.value;
    if t.at.offset < |logs[n]| {
      UnreadIsARecord(logs[n], From(t.began, n), t.at.offset);
      gone := (n, NextRecord(logs[n], t.at.offset).value);
      BeforeHolds(logs, t.began, n, log, gone.1);
    } else {
      var k :| n < k < log && LogAt(logs, k) != [];
      assert Reaches(logs[k], 0, 0);
      UnreadIsARecord(logs[k], 0, 0);
      gone := (k, NextRecord(logs[k], 0).value);
      BeforeHolds(logs, t.began, k, log, gone.1);
    }
  }

  lemma PollLoses(logs: Logs, t: Tailer, r: Round) returns (gone: (nat, Span))
    requires WellPlaced(logs, t) && Possible(logs, t, r) && Loses(logs, t, r)
    ensures Lost(logs, Poll(logs, t, r), gone)
  {
    ReadKeeps(logs, t, r.records);
    var from := Leaving(logs, t, r).value;
    gone := LeavingLoses(logs, from, r.log, r.keep);
    if t.open.None? || r.inPlace {
      TakeUpKeeps(logs, t, r);
      ReadKeepsLost(logs, TakeUp(t, r.log, r.keep).(open := Some(r.log)), r.records, gone);
    }
  }

  // ---------------------------------------------------------------------
  // Exactly which schedules lose nothing

  /** A round of the schedule that loses something, at the state the rounds before lead to. */
  ghost predicate LosesAt(logs: Logs, start: Tailer, rounds: seq<Round>, k: nat)
    requires k < |rounds|
  {
    Loses(logs, PollAll(logs, start, rounds[..k]), rounds[k])
  }

  lemma {:induction false} AllWellPlaced(logs: Logs, start: Tailer, rounds: seq<Round>)
    requires WellPlaced(logs, start) && PossibleAll(logs, start, rounds)
    ensures WellPlaced(logs, PollAll(logs, start, rounds))
  {
    if rounds != [] {
      AllWellPlaced(logs, start, rounds[..|rounds| - 1]);
      PollKeeps(logs, PollAll(logs, start, rounds[..|rounds| - 1]), rounds[|rounds| - 1]);
    }
  }

  lemma {:induction false} NoLossKeeps(logs: Logs, start: Tailer, rounds: seq<Round>)
    requires WellPlaced(logs, start) && Lossless(logs, start) && PossibleAll(logs, start, rounds)
    requires forall k :: 0 <= k < |rounds| ==> !LosesAt(logs, start, rounds, k)
    ensures Lossless(logs, PollAll(logs, start, rounds))
  {
    if rounds != [] {
      var last := |rounds| - 1;
      var before := rounds[..last];
      forall k | 0 <= k < last ensures !LosesAt(logs, start, before, k) {
        assert before[..k] == rounds[..k];
        assert !LosesAt(logs, start, rounds, k);
      }
      NoLossKeeps(logs, start, before);
      AllWellPlaced(logs, start, before);
      assert !LosesAt(logs, start, rounds, last);
      PollKeeps(logs, PollAll(logs, start, before), rounds[last]);
    }
  }

  lemma {:induction false} LossStays(logs: Logs, start: Tailer, rounds: seq<Round>, k: nat) returns (gone: (nat, Span))
    requires WellPlaced(logs, start) && PossibleAll(logs, start, rounds)
    requires k < |rounds| && LosesAt(logs, start, rounds, k)
    ensures Lost(logs, PollAll(logs, start, rounds), gone)
    decreases |rounds|
  {
    var last := |rounds| - 1;
    var before := rounds[..last];
    AllWellPlaced(logs, start, before);
    var t := PollAll(logs, start, before);
    if k == last {
      gone := PollLoses(logs, t, rounds[last]);
    } else {
      assert before[..k] == rounds[..k];
      gone := LossStays(logs, start, before, k);
      PollKeepsLost(logs, t, rounds[last], gone);
    }
  }

  /**
   Over any schedule of rounds, with failed writes, failed opens, signals and
   restarts at any of them: every record of every log that stood under the path has been
   passed, once and in order, if and only if no round took up a log while the
   one it left had unread bytes, or while one was skipped that had any.
   */
  lemma LosslessIffNothingLeftUnread(logs: Logs, start: Tailer, rounds: seq<Round>)
    requires WellPlaced(logs, start) && Lossless(logs, start) && PossibleAll(logs, start, rounds)
    ensures Lossless(logs, PollAll(logs, start, rounds)) <==> forall k :: 0 <= k < |rounds| ==> !LosesAt(logs, start, rounds, k)
  {
    if forall k :: 0 <= k < |rounds| ==> !LosesAt(logs, start, rounds, k) {
      NoLossKeeps(logs, start, rounds);
    } else {
      var k :| 0 <= k < |rounds| && LosesAt(logs, start, rounds, k);
      var gone := LossStays(logs, start, rounds, k);
      LostIsNotLossless(logs, PollAll(logs, start, rounds), gone);
    }
  }

  // ---------------------------------------------------------------------
  // What that means round by round

  /**
   A drained file was replaced by B, and the path is looked up again to open
   it: nothing is lost iff it still names B, or B is complete and empty, as is
   whatever came after it and went.
   */
  lemma SwitchedLogIsAtRisk(logs: Logs, t: Tailer, r: Round)
    requires WellPlaced(logs, t) && Possible(logs, t, r) && r.Found? && r.saved
    requires t.open.None? && t.at.log.Some? && t.at.offset == 0
    ensures Loses(logs, t, r) <==>
      r.log != t.at.log.value && exists k :: t.at.log.value <= k < r.log && LogAt(logs, k) != []
  {
    if r.log != t.at.log.value {
      assert SomethingBetween(logs, t.at.log.value, r.log) ==> exists k :: t.at.log.value <= k < r.log && LogAt(logs, k) != [];
      if LogAt(logs, t.at.log.value) != [] {
        assert Loses(logs, t, r);
      }
    }
  }

  /** A drain that a signal cuts short after some progress loses iff bytes were left, or a log was skipped. */
  lemma CutDrainLoses(logs: Logs, t: Tailer, r: Round)
    requires WellPlaced(logs, t) && Possible(logs, t, r) && r.Found? && r.saved && r.ended && !r.inPlace
    requires t.open.Some? && t.open.value != r.log
    ensures Loses(logs, t, r) <==>
      || Read(logs, t, r.records).at.offset < |logs[t.open.value]|
      || SomethingBetween(logs, t.open.value, r.log)
  {
    ReadKeeps(logs, t, r.records);
  }

  /**
   The way rotation is meant to go: a round stays with the log being worked on,
   or drains it to its very end and finds the next one, or takes up the first.
   */
  predicate Prompt(logs: Logs, t: Tailer, r: Round) {
    || !r.Found? || !r.saved || t.at.log.None? || t.at.log == Some(r.log)
    || (t.open.Some? && !r.inPlace && r.log == t.open.value + 1
        && Read(logs, t, r.records).at.offset == |LogAt(logs, t.open.value)|)
  }

  lemma PromptRoundsLoseNothing(logs: Logs, t: Tailer, r: Round)
    requires WellPlaced(logs, t) && Prompt(logs, t, r)
    ensures !Loses(logs, t, r)
  {
    if r.Found? {
      ReadKeeps(logs, t, r.records);
    }
  }

  lemma OneLine(x: byte)
    requires x != NEWLINE
    ensures NextRecord([x, NEWLINE], 0) == Some(Span(0, 2, Line)) && NextRecord([x, NEWLINE], 2) == None
  {
    LineEndIsFirst([x, NEWLINE], 0, 2);
  }

  /** Three files of one line each. */
  function ThreeLogs(): Logs {
    map[0 := [65, NEWLINE], 1 := [66, NEWLINE], 2 := [67, NEWLINE]]
  }

  /**
   One rotation between any two rounds, no signal, no failed write, every drain
   complete: the path is looked up as file 1 while file 0 is drained, and names
   file 2 when it is looked up again. File 1 is never read.
   */
  lemma SecondRotationLosesAFile()
    ensures
      var logs, start := ThreeLogs(), Tailer(Cursor(Some(0), 0), None, Cursor(Some(0), 0), []);
      var rounds := [
        Found(0, false, true, true, 1, true, false),
        Found(1, false, true, true, 0, true, false),
        Found(2, false, true, true, 1, true, false)];
      && PossibleAll(logs, start, rounds)
      && PollAll(logs, start, rounds[..2]) == Tailer(Cursor(Some(1), 0), None, Cursor(Some(0), 0), [(0, Span(0, 2, Line))])
      && PollAll(logs, start, rounds).passed == [(0, Span(0, 2, Line)), (2, Span(0, 2, Line))]
      && !Lossless(logs, PollAll(logs, start, rounds))
  {
    var logs, start := ThreeLogs(), Tailer(Cursor(Some(0), 0), None, Cursor(Some(0), 0), []);
    var first := Found(0, false, true, true, 1, true, false);
    var second := Found(1, false, true, true, 0, true, false);
    var third := Found(2, false, true, true, 1, true, false);
    var rounds := [first, second, third];
    OneLine(65);
    OneLine(66);
    OneLine(67);
    var t1 := Poll(logs, start, first);
    assert Read(logs, start.(open := Some(0)), 1) == ReadOne(logs, start.(open := Some(0)));
    assert t1 == Tailer(Cursor(Some(0), 2), Some(0), Cursor(Some(0), 0), [(0, Span(0, 2, Line))]);
    var t2 := Poll(logs, t1, second);
    assert t2 == Tailer(Cursor(Some(1), 0), None, Cursor(Some(0), 0), [(0, Span(0, 2, Line))]);
    var u := Tailer(Cursor(Some(2), 0), Some(2), Cursor(Some(0), 0), [(0, Span(0, 2, Line))]);
    assert Read(logs, u, 1) == ReadOne(logs, u);
    Unroll(logs, start, first, second, third);
    assert WellPlaced(logs, t2) by {
      assert Reaches(logs[1], 0, 0);
    }
    assert Loses(logs, t2, third);
    var gone := PollLoses(logs, t2, third);
    LostIsNotLossless(logs, Poll(logs, t2, third), gone);
  }

  lemma Unroll(logs: Logs, start: Tailer, a: Round, b: Round, c: Round)
    ensures PollAll(logs, start, [a, b, c][..2]) == Poll(logs, Poll(logs, start, a), b)
    ensures PollAll(logs, start, [a, b, c]) == Poll(logs, Poll(logs, Poll(logs, start, a), b), c)
    ensures PossibleAll(logs, start, [a, b, c]) <==>
      && Possible(logs, start, a) && Possible(logs, Poll(logs, start, a), b)
      && Possible(logs, Poll(logs, Poll(logs, start, a), b), c)
  {
    var none: seq<Round> := [];
    assert [a, b, c][..2] == [a, b] && [a, b][..1] == [a] && [a][..0] == none;
    assert PollAll(logs, start, none) == start && PossibleAll(logs, start, none);
    assert PollAll(logs, start, [a]) == Poll(logs, start, a);
    assert PossibleAll(logs, start, [a]) <==> Possible(logs, start, a);
    assert PollAll(logs, start, [a, b]) == Poll(logs, PollAll(logs, start, [a]), b);
    assert PossibleAll(logs, start, [a, b]) <==> PossibleAll(logs, start, [a]) && Possible(logs, PollAll(logs, start, [a]), b);
  }

  /**
   A signal after some progress in a drain: the rest of the rotated file is
   left, and the new one is saved as taken up all the same.
   */
  lemma SignalInADrainLosesTheRest()
    ensures
      var logs: Logs := map[0 := [65, NEWLINE, 66, NEWLINE], 1 := []];
      var t := Tailer(Cursor(Some(0), 0), Some(0), Cursor(Some(0), 0), []);
      var r := Found(1, false, true, true, 1, true, false);
      && WellPlaced(logs, t) && Lossless(logs, t) && Possible(logs, t, r) && Loses(logs, t, r)
      && Poll(logs, t, r) == Tailer(Cursor(Some(1), 0), None, Cursor(Some(0), 0), [(0, Span(0, 2, Line))])
  {
    var log: seq<byte> := [65, NEWLINE, 66, NEWLINE];
    var logs: Logs := map[0 := log, 1 := []];
    var t := Tailer(Cursor(Some(0), 0), Some(0), Cursor(Some(0), 0), []);
    LineEndIsFirst(log, 0, 2);
    assert NextRecord(log, 0) == Some(Span(0, 2, Line));
    assert Read(logs, t, 1) == ReadOne(logs, t);
    assert Reaches(log, 0, 0) && Between(log, 0, 0) == [];
  }

  // ---------------------------------------------------------------------
  // Tailing one log

  /**
   Shipping one log without loss and without fragments, up to where nothing
   further is finished in what is visible: what has been passed is the visible
   content split at its line ends, however it was polled and chunked.
   */
  lemma TailingIsSplitting(logs: Logs, t: Tailer, visible: nat)
    requires WellPlaced(logs, t) && Lossless(logs, t) && t.at.log.Some? && t.began.log == t.at.log
    requires forall i :: 0 <= i < |t.passed| ==> !t.passed[i].1.kind.Truncated?
    requires t.at.offset <= visible <= |logs[t.at.log.value]|
    requires NextFinished(logs[t.at.log.value][..visible], t.at.offset).None?
    ensures t.passed == Tagged(t.at.log.value, Finished(logs[t.at.log.value][..visible], t.began.offset))
  {
    var n := t.at.log.value;
    var spans := Between(logs[n], t.began.offset, t.at.offset);
    assert t.passed == Tagged(n, spans);
    forall r | r in spans ensures !r.kind.Truncated? {
      var i :| 0 <= i < |spans| && spans[i] == r;
      assert t.passed[i] == (n, r);
    }
    BetweenIsFinished(logs[n], t.began.offset, t.at.offset, visible);
  }

  lemma {:induction false} ReadIsBetween(logs: Logs, t: Tailer, records: nat)
    requires t.at.log.Some? && t.at.log.value in logs
    ensures var u := Read(logs, t, records);
            var log := logs[t.at.log.value];
            && u.at.log == t.at.log && Reaches(log, t.at.offset, u.at.offset)
            && u.passed == t.passed + Tagged(t.at.log.value, Between(log, t.at.offset, u.at.offset))
  {
    var n := t.at.log.value;
    if records == 0 {
      assert Between(logs[n], t.at.offset, t.at.offset) == [];
    } else {
      ReadIsBetween(logs, t, records - 1);
      var u := Read(logs, t, records - 1);
      if NextRecord(logs[n], u.at.offset).Some? {
        var span := NextRecord(logs[n], u.at.offset).value;
        OneRecordFurther(logs[n], t.at.offset, u.at.offset);
        var shorter := Between(logs[n], t.at.offset, u.at.offset);
        assert Tagged(n, shorter + [span]) == Tagged(n, shorter) + [(n, span)];
      }
    }
  }

  // ---------------------------------------------------------------------
  // Several processes

  function Fresh(at: Cursor): Tailer {
    Tailer(at, None, at, [])
  }

  /** What a process does after what the ones before it did. */
  function Then(t: Tailer, u: Tailer): Tailer {
    Tailer(u.at, u.open, if t.began.log.None? then u.began else t.began, t.passed + u.passed)
  }

  lemma {:induction false} ReadThen(logs: Logs, t: Tailer, u: Tailer, records: nat)
    ensures Read(logs, Then(t, u), records) == Then(t, Read(logs, u, records))
  {
    if records > 0 {
      ReadThen(logs, t, u, records - 1);
      var v := Read(logs, u, records - 1);
      if v.at.log.Some? && v.at.log.value in logs && NextRecord(logs[v.at.log.value], v.at.offset).Some? {
        var r := (v.at.log.value, NextRecord(logs[v.at.log.value], v.at.offset).value);
        assert t.passed + (v.passed + [r]) == (t.passed + v.passed) + [r];
      }
    }
  }

  lemma PollThen(logs: Logs, t: Tailer, u: Tailer, r: Round)
    ensures Poll(logs, Then(t, u), r) == Then(t, Poll(logs, u, r))
    ensures Possible(logs, Then(t, u), r) <==> Possible(logs, u, r)
  {
    if r.Found? {
      ReadThen(logs, t, u, r.records);
      ReadThen(logs, t, u.(open := Some(r.log)), r.records);
      var taken := TakeUp(u, r.log, r.keep);
      assert TakeUp(Then(t, u), r.log, r.keep) == Then(t, taken);
      ReadThen(logs, t, taken.(open := Some(r.log)), r.records);
      var drained := Read(logs, u, r.records);
      assert TakeUp(Then(t, drained), r.log, r.keep) == Then(t, TakeUp(drained, r.log, r.keep));
    }
  }

  /** The schedules of two processes, one started from what the other saved, make one schedule with a restart. */
  lemma {:induction false} RestartGoesOn(logs: Logs, start: Tailer, first: seq<Round>, second: seq<Round>)
    requires WellPlaced(logs, start) && PossibleAll(logs, start, first)
    requires PossibleAll(logs, Fresh(PollAll(logs, start, first).at), second)
    ensures PossibleAll(logs, start, first + [Restart] + second)
    ensures PollAll(logs, start, first + [Restart] + second) ==
      Then(PollAll(logs, start, first), PollAll(logs, Fresh(PollAll(logs, start, first).at), second))
    decreases |second|
  {
    var t := PollAll(logs, start, first);
    AllWellPlaced(logs, start, first);
    if second == [] {
      assert first + [Restart] + second == first + [Restart] && (first + [Restart])[..|first|] == first;
      assert t.passed + [] == t.passed;
    } else {
      var init, r := second[..|second| - 1], second[|second| - 1];
      RestartGoesOn(logs, start, first, init);
      assert (first + [Restart] + second)[..|first| + |second|] == first + [Restart] + init;
      PollThen(logs, t, PollAll(logs, Fresh(t.at), init), r);
    }
  }
}
