/**
 The shipper: read records, hand them on, save the offset; survive restarts,
 failed writes, rotation and truncation.
 */
module LogShipper {
  import opened Wrappers
  import opened AuditRecords
  import opened ShipperJournal
  import opened ShipperSchedule
  import opened ShipperState
  import opened ShipperVerdicts

  /** A log file. `all` is everything ever written to it, `visible` how much of that is there already. */
  class AuditFile {
    ghost const log: nat
    const identity: Identity
    const all: seq<byte>
    var visible: nat

    constructor (log: nat, identity: Identity, all: seq<byte>)
      ensures this.log == log && this.identity == identity && this.all == all && visible == 0
    {
      this.log, this.identity, this.all, this.visible := log, identity, all, 0;
    }

    ghost predicate Valid()
      reads this
    {
      visible <= |all|
    }

    /** The writer appends. */
    method Grow()
      requires Valid()
      modifies this
      ensures Valid() && old(visible) <= visible
    {
      var more :| visible <= more <= |all|;
      visible := more;
    }

    /** readline(limit) at a position. */
    method ReadLine(pos: nat, limit: nat) returns (chunk: seq<byte>)
      requires Valid() && limit > 0
      modifies this
      ensures Valid() && old(visible) <= visible
      ensures chunk == [] ==> pos >= visible
      ensures chunk != [] ==>
        && pos + |chunk| <= visible && chunk == all[pos..pos + |chunk|] && |chunk| <= limit
        && (chunk[|chunk| - 1] == NEWLINE || |chunk| == limit || pos + |chunk| == visible)
      ensures forall i :: 0 <= i < |chunk| - 1 ==> chunk[i] != NEWLINE
    {
      Grow();
      chunk := [];
      while pos + |chunk| < visible && |chunk| < limit && (chunk == [] || chunk[|chunk| - 1] != NEWLINE)
        invariant |chunk| <= limit && (chunk != [] ==> pos + |chunk| <= visible && chunk == all[pos..pos + |chunk|])
        invariant forall i :: 0 <= i < |chunk| - 1 ==> chunk[i] != NEWLINE
        decreases limit - |chunk|
      {
        chunk := chunk + [all[pos + |chunk|]];
      }
    }

    /**
     One record at `start`, or none if the writer has not finished it. What it
     returns depends on the log's bytes only, not on how far they were visible
     at any of the reads.
     */
    method ConsumeRecord(start: nat, drain: bool) returns (r: Option<(Kind, seq<byte>)>, pos: nat)
      requires Valid() && (drain ==> visible == |all|)
      modifies this
      ensures Valid() && old(visible) <= visible
      ensures r.None? ==> pos == start && NextFinished(all[..old(visible)], start).None?
      ensures r.None? && drain ==> NextRecord(all, start).None?
      ensures r.Some? ==> NextRecord(all, start) == Some(Span(start, pos, r.value.0)) && pos <= visible
      ensures r.Some? ==> (r.value.0.Truncated? ==> drain) && (r.value.0.Line? ==> r.value.1 == all[start..pos])
      ensures r.Some? ==>
        r.value.1 == all[start..if pos - start <= MAX_LINE_BYTES then pos else start + MAX_LINE_BYTES]
    {
      ghost var seen := visible;
      var chunk := ReadLine(start, MAX_LINE_BYTES);
      pos := start + |chunk|;
      if chunk == [] {
        NothingFinished(all, seen, start, visible);
        return None, start;
      }
      assert forall i :: start <= i < pos - 1 ==> all[i] == chunk[i - start];
      if chunk[|chunk| - 1] == NEWLINE {
        LineEndIsFirst(all, start, pos);
        return Some((Line, chunk)), pos;
      }
      assert forall i :: start <= i < pos ==> all[i] == chunk[i - start];
      if |chunk| < MAX_LINE_BYTES {
        NothingFinished(all, seen, start, visible);
        if drain {
          return Some((Truncated, chunk)), pos;
        }
        return None, start;
      }
      while true
        invariant Valid() && seen <= visible && (drain ==> visible == |all|)
        invariant start + MAX_LINE_BYTES <= pos <= visible
        invariant chunk == all[start..start + MAX_LINE_BYTES]
        invariant forall i :: start <= i < pos ==> all[i] != NEWLINE
        decreases |all| - pos
      {
        var more := ReadLine(pos, MAX_LINE_BYTES);
        assert forall i :: pos <= i < pos + |more| ==> all[i] == more[i - pos];
        if more == [] || (more[|more| - 1] != NEWLINE && |more| < MAX_LINE_BYTES) {
          NothingFinished(all, seen, start, visible);
          if drain {
            pos := pos + |more|;
            return Some((Truncated, chunk)), pos;
          }
          return None, start;
        }
        pos := pos + |more|;
        if more[|more| - 1] == NEWLINE {
          LineEndIsFirst(all, start, pos);
          return Some((TooLong, chunk)), pos;
        }
      }
    }
  }

  lemma NothingFinished(log: seq<byte>, seen: nat, s: nat, visible: nat)
    requires seen <= visible <= |log|
    requires forall i :: s <= i < visible ==> log[i] != NEWLINE
    ensures NextFinished(log[..seen], s).None?
    ensures visible == |log| ==> NextFinished(log, s).None?
  {
    NoLineEnd(log[..seen], s);
    NoLineEnd(log, s);
  }

  datatype ShipResult = Shipped | Dropped | Aborted

  datatype Poll = Progressed | Idle | Stopped | OsError

  class Shipper {
    const content: seq<byte> -> Content
    ghost const logs: Logs
    ghost const identities: map<nat, Identity>
    ghost const start: Cursor

    var state: State
    var stateFile: StateFile
    var file: AuditFile?
    var running: bool
    var droppedTotal: nat
    ghost var journal: seq<Effect>
    ghost var rounds: seq<Round>

    ghost function At(): Cursor
      reads this
    {
      Durable(start, journal)
    }

    /** The loop's state as the schedule sees it. */
    ghost function Now(): Tailer
      reads this
    {
      Tailer(At(), if file == null then None else Some(file.log), Began(start, journal), Passed(start, journal))
    }

    /** What the loop has come to is what the rounds so far make of its start. */
    ghost predicate OnSchedule()
      reads this
    {
      PossibleAll(logs, Fresh(start), rounds) && Now() == PollAll(logs, Fresh(start), rounds)
    }

    function LoadState(): State
      reads this
    {
      match Load(stateFile)
      case None => START
      case Some(saved) => saved
    }

    /** The journal is disciplined and the state file says what the journal says. */
    ghost predicate Valid()
      reads this
    {
      && GoodStart(logs, start) && Disciplined(logs, start, journal)
      && logs.Keys == identities.Keys
      && LoadState().offset == At().offset
      && (At().log.Some? ==> At().log.value in logs)
      && LoadState().identity == (if At().log.None? then None else Some(identities[At().log.value]))
    }

    ghost predicate Knows(f: AuditFile)
      reads f
    {
      f.Valid() && f.log in logs && logs[f.log] == f.all && f.log in identities && identities[f.log] == f.identity
    }

    /** The open file is the one the saved offset is about. */
    ghost predicate Tailing()
      reads this, file
    {
      file != null && Knows(file) && At().log == Some(file.log)
    }

    /** Memory and state file agree. */
    ghost predicate Synced()
      reads this
    {
      state == LoadState()
    }

    constructor (content: seq<byte> -> Content, ghost logs: Logs, ghost identities: map<nat, Identity>,
                 stateFile: StateFile, ghost start: Cursor)
      requires GoodStart(logs, start) && logs.Keys == identities.Keys
      requires Load(stateFile) ==
        Some(State(start.offset, if start.log.None? then None else Some(identities[start.log.value])))
      ensures Valid() && Synced() && file == null && journal == [] && running
      ensures rounds == [] && OnSchedule()
      ensures this.logs == logs && this.start == start && this.identities == identities
    {
      this.content, this.logs, this.identities, this.start := content, logs, identities, start;
      this.stateFile := stateFile;
      state := Load(stateFile).value;
      file, running, droppedTotal, journal, rounds := null, true, 0, [], [];
    }

    /** A signal may arrive whenever the loop looks. */
    method StillRunning() returns (yes: bool)
      modifies this`running
      ensures yes == running && (yes ==> old(running))
    {
      if * {
        running := false;
      }
      yes := running;
    }

    ghost method Note(e: Effect)
      requires Disciplined(logs, start, journal) && May(logs, start, journal, e)
      modifies this`journal
      ensures journal == old(journal) + [e] && Disciplined(logs, start, journal)
      ensures e.Handled? ==> At() == old(At())
      ensures e.Saved? ==> At() == Cursor(Some(e.log), e.offset)
    {
      var longer := journal + [e];
      assert longer[..|longer| - 1] == journal;
      journal := longer;
    }

    /** Dead-letter the record before the offset moves. */
    method NoteDrop(ghost span: Span, ghost answers: seq<Response>)
      requires Valid() && Tailing() && MayHandle(logs, At(), file.log, span)
      modifies this`droppedTotal, this`journal
      ensures Valid() && journal == old(journal) + [Handled(file.log, span, DeadLettered, answers)] && At() == old(At())
    {
      droppedTotal := droppedTotal + 1;
      Note(Handled(file.log, span, DeadLettered, answers));
    }

    ghost predicate OnlyThis(before: seq<Effect>, after: seq<Effect>, log: nat, span: Span) {
      && before <= after
      && forall i :: |before| <= i < |after| ==> after[i].Handled? && after[i].log == log && after[i].span == span
    }

    lemma SpanOfNext(span: Span)
      requires file != null && Knows(file) && MayHandle(logs, At(), file.log, span)
      ensures span.start <= span.end <= |file.all|
    {
    }

    method ShipLine(line: seq<byte>, ghost span: Span) returns (r: ShipResult)
      requires Valid() && Tailing() && MayHandle(logs, At(), file.log, span)
      requires span.kind.Line? && line == file.all[span.start..span.end]
      modifies this`running, this`droppedTotal, this`journal
      ensures Valid() && At() == old(At()) && OnlyThis(old(journal), journal, file.log, span)
      ensures r.Aborted? ==> !running
      ensures !r.Aborted? ==> |journal| > |old(journal)| && Deserved(file.all, content, journal[|journal| - 1])
      ensures r.Shipped? <==> |journal| > |old(journal)| && !r.Aborted? && journal[|journal| - 1].how == Accepted
    {
      SpanOfNext(span);
      hide Disciplined, May, Trail, GoodStart, NextRecord, Deserved, Durable;
      var empty := forall i :: 0 <= i < |line| ==> line[i] == 10 || line[i] == 13;
      if empty || content(line).Unshippable? {
        WithoutPosting(file.all, content, file.log, span);
      }
      if empty {
        Note(Handled(file.log, span, Blank, []));
        return Dropped;
      }
      if content(line).Unshippable? {
        NoteDrop(span, []);
        return Dropped;
      }
      r := PostEvent(span);
    }

    /** Post until it is answered for good, or a signal comes. */
    method PostEvent(ghost span: Span) returns (r: ShipResult)
      requires Valid() && Tailing() && MayHandle(logs, At(), file.log, span)
      requires span.start <= span.end <= |file.all| && Postable(file.all, content, span)
      modifies this`running, this`droppedTotal, this`journal
      ensures Valid() && At() == old(At()) && OnlyThis(old(journal), journal, file.log, span)
      ensures r.Aborted? ==> !running
      ensures !r.Aborted? ==> |journal| > |old(journal)| && Deserved(file.all, content, journal[|journal| - 1])
      ensures r.Shipped? <==> |journal| > |old(journal)| && !r.Aborted? && journal[|journal| - 1].how == Accepted
    {
      hide Disciplined, May, Trail, GoodStart, NextRecord, Deserved, Durable, Postable;
      ghost var answers: seq<Response> := [];
      var signal: nat :| true;  // the shutdown signal comes after this many attempts at the latest
      while running
        invariant Valid() && At() == old(At()) && OnlyThis(old(journal), journal, file.log, span)
        invariant forall i :: 0 <= i < |answers| ==> TriesAgain(answers[i])
        decreases signal, running
      {
        var response: Response := *;
        LastAnswerDecides(file.all, content, file.log, span, answers, response);
        answers := answers + [response];
        match response {
          case Answered(code) =>
            if 200 <= code < 300 {
              Note(Handled(file.log, span, Accepted, answers));
              return Shipped;
            }
            if !(code == 401 || code == 403 || code == 429 || code >= 500) {
              NoteDrop(span, answers);
              return Dropped;
            }
          case Unanswered(stored) =>
            if stored {
              Note(Handled(file.log, span, Accepted, answers));
            }
        }
        if signal == 0 {
          running := false;
        } else {
          signal := signal - 1;
          var _ := StillRunning();
        }
      }
      r := Aborted;
    }

    /** Lines are shipped; records without a usable line are dead-lettered. */
    method ShipRecord(kind: Kind, payload: seq<byte>, ghost span: Span) returns (r: ShipResult)
      requires Valid() && Tailing() && MayHandle(logs, At(), file.log, span)
      requires span.kind == kind && (kind.Line? ==> payload == file.all[span.start..span.end])
      modifies this`running, this`droppedTotal, this`journal
      ensures Valid() && At() == old(At()) && OnlyThis(old(journal), journal, file.log, span)
      ensures Now() == old(Now())
      ensures r.Aborted? ==> !running
      ensures !r.Aborted? ==> |journal| > |old(journal)| && Advances(At(), journal, file.log, span.end)
      ensures !r.Aborted? ==> journal[|journal| - 1].span == span && Deserved(file.all, content, journal[|journal| - 1])
      ensures OnlyThis(old(journal), journal, file.log, span)
    {
      SpanOfNext(span);
      hide Deserved, Disciplined, GoodStart;
      if kind.Line? {
        r := ShipLine(payload, span);
      } else {
        WithoutPosting(file.all, content, file.log, span);
        NoteDrop(span, []);
        r := Dropped;
      }
      HandledOnlyAdds(start, old(journal), journal, file.log, span);
    }

    /** Replace the state file, or fail and leave it. */
    method PersistState(s: State, ghost log: nat) returns (ok: bool)
      requires Valid() && May(logs, start, journal, Saved(log, s.offset))
      requires log in identities && s.identity == Some(identities[log])
      modifies this`stateFile, this`journal
      ensures Valid()
      ensures ok ==> LoadState() == s && journal == old(journal) + [Saved(log, s.offset)]
      ensures !ok ==> stateFile == old(stateFile) && journal == old(journal)
    {
      ok := *;
      if ok {
        stateFile := Written(s);
        LoadWritten(s);
        Note(Saved(log, s.offset));
      }
    }

    lemma OneMoreEarned(before: seq<Effect>, handled: seq<Effect>, span: Span)
      requires file != null && Knows(file) && before < handled && Earned(logs, content, before, handled)
      requires handled[|handled| - 1].Handled? && handled[|handled| - 1].log == file.log
      requires Deserved(file.all, content, handled[|handled| - 1])
      ensures Earned(logs, content, before, handled + [Saved(file.log, span.end)])
    {
      var after := handled + [Saved(file.log, span.end)];
      hide Deserved;
      forall k | |before| <= k < |after| && Passes(after, k) ensures EarnedAt(logs, content, after, k) {
        if k < |handled| {
          assert Passes(handled, k) && EarnedAt(logs, content, handled, k);
        }
      }
    }

    /** Hand one record on, then move the offset past it. */
    method ShipAndAdvance(kind: Kind, payload: seq<byte>, pos: nat, ghost span: Span) returns (r: Poll)
      requires Valid() && Synced() && Tailing() && MayHandle(logs, At(), file.log, span)
      requires span == Span(state.offset, pos, kind) && (kind.Line? ==> payload == file.all[span.start..span.end])
      modifies this`state, this`stateFile, this`running, this`droppedTotal, this`journal
      ensures Valid() && Tailing() && old(journal) <= journal
      ensures forall k :: |old(journal)| <= k < |journal| && journal[k].Handled? ==> journal[k].span == span
      ensures Earned(logs, content, old(journal), journal)
      ensures r != Idle
      ensures r.Progressed? ==> Synced() && Now() == ReadOne(logs, old(Now())) && At().offset == pos
      ensures !r.Progressed? ==> Now() == old(Now())
      ensures r.Stopped? ==> Synced() && !running
    {
      hide Disciplined, NextFinished, GoodStart;
      var result := ShipRecord(kind, payload, span);
      if result.Aborted? {
        return Stopped;
      }
      state := state.(offset := pos);
      ghost var handled := journal;
      OnlyHandled(logs, content, old(journal), handled);
      var saved := PersistState(state, file.log);
      if saved {
        OneMoreEarned(old(journal), handled, span);
        SavedPasses(start, handled, file.log, span);
        BeganWithTheFirst(start, handled);
      }
      r := if saved then Progressed else OsError;
    }

    /**
     Hand on what is available: `records` of it. `exhausted` says that the loop
     ended because nothing further was available in the `seen` bytes, not
     because of a signal or a failed write.
     */
    method ShipAvailable(drain: bool) returns (poll: Poll, ghost exhausted: bool, ghost records: nat, ghost seen: nat)
      requires Valid() && Synced() && Tailing() && (drain ==> file.visible == |file.all|)
      requires At().offset <= file.visible
      modifies this`state, this`stateFile, this`running, this`droppedTotal, this`journal, file
      ensures Valid() && Tailing() && old(journal) <= journal
      ensures old(file.visible) <= file.visible && At().offset <= file.visible
      ensures Now() == Read(logs, old(Now()), records)
      ensures !poll.OsError? ==> Synced()
      ensures poll.Stopped? ==> !running
      ensures poll.Idle? || (poll.Progressed? && running) ==> exhausted
      ensures exhausted ==>
        && old(file.visible) <= seen <= file.visible && At().offset <= seen
        && NextFinished(file.all[..seen], At().offset).None?
        && (drain ==> NextRecord(file.all, At().offset).None?)
      // what was passed meanwhile is what was visible, split at its line ends
      ensures exhausted && !drain ==>
        Passed(start, journal) == old(Passed(start, journal)) + Tagged(file.log, Finished(file.all[..seen], old(At()).offset))
      ensures !drain ==> NoFragments(old(journal), journal)
      // and each record was posted, dead-lettered or dropped as its bytes and its answers ask for
      ensures Earned(logs, content, old(journal), journal)
    {
      hide Disciplined, NextRecord, NextFinished, Durable, Passed, Began, GoodStart, Earned, ReadOne, Load, Finished, Tagged, BlankLine, WholeLines;
      var progressed := false;
      exhausted, records, seen := false, 0, 0;
      ghost var before := Now();
      OnlyHandled(logs, content, journal, journal);
      NoneYet(before);
      while true
        invariant Valid() && Synced() && Tailing() && old(journal) <= journal
        invariant old(file.visible) <= file.visible && (drain ==> file.visible == |file.all|)
        invariant Now() == Read(logs, before, records) && At().offset <= file.visible
        invariant !progressed ==> records == 0
        invariant !drain ==> NoFragments(old(journal), journal)
        invariant !drain ==> WholeLines(before, Now())
        invariant Earned(logs, content, old(journal), journal)
        decreases |file.all| - state.offset
      {
        var go := StillRunning();
        if !go {
          break;
        }
        ghost var visible := file.visible;
        var record, pos := file.ConsumeRecord(state.offset, drain);
        if record.None? {
          exhausted, seen := true, visible;
          if !drain {
            LinesAreSplit(logs, before, records, visible);
          }
          return if progressed then Progressed else Idle, exhausted, records, seen;
        }
        var (kind, payload) := record.value;
        ghost var earlier, sofar := Now(), journal;
        poll := ShipAndAdvance(kind, payload, pos, Span(state.offset, pos, kind));
        EarnedComposes(logs, content, old(journal), sofar, journal);
        if !poll.Progressed? {
          return poll, exhausted, records, seen;
        }
        records := records + 1;
        OneMoreLine(logs, before, earlier, Span(earlier.at.offset, pos, kind));
        progressed := true;
      }
      poll := if progressed then Progressed else Stopped;
    }

    // -------------------------------------------------------------------
    // Which file, and from where

    /**
     A file under the saved identity is the saved log exactly while it is long
     enough: it was not truncated and refilled past the offset, and its inode
     was not reused.
     */
    ghost predicate Recognisable(f: AuditFile)
      reads this, f
    {
      LoadState().identity == Some(f.identity) ==> (At().log == Some(f.log) <==> LoadState().offset <= f.visible)
    }

    /** The path goes from log to log and not back. */
    ghost predicate NotEarlier(f: AuditFile)
      reads this
    {
      At().log.Some? ==> At().log.value <= f.log
    }

    method StateForOpenedFile(path: AuditFile, size: nat) returns (ok: bool, ghost keep: bool)
      requires Valid() && Synced() && Knows(path) && Recognisable(path) && NotEarlier(path) && size == path.visible
      modifies this`state, this`stateFile, this`journal
      ensures Valid() && old(journal) <= journal
      ensures old(At()).log == Some(path.log) ==> ok && Now() == old(Now())
      ensures ok && old(At()).log != Some(path.log) ==> Now() == ShipperSchedule.TakeUp(old(Now()), path.log, keep)
      ensures !ok ==> Now() == old(Now()) && stateFile == old(stateFile)
      ensures Earned(logs, content, old(journal), journal)
      ensures ok ==> Synced() && At().log == Some(path.log) && At().offset <= path.visible
      ensures old(At()).log.None? && keep ==> old(At()).offset <= |path.all|
    {
      var saved := state.identity.Some?;
      var same := saved && state.identity.value == path.identity;
      keep := false;
      if (saved && !same) || size < state.offset {
        ok := TakeUp(State(0, Some(path.identity)), path);
        if ok {
          state := State(0, Some(path.identity));
        }
      } else if !same {
        keep := true;
        ok := TakeUp(State(state.offset, Some(path.identity)), path);
        if ok {
          state := State(state.offset, Some(path.identity));
        }
      } else {
        ok := true;
      }
    }

    method TakeUp(s: State, path: AuditFile) returns (ok: bool)
      requires Valid() && Knows(path) && s.identity == Some(path.identity)
      requires TakesUp(logs, At(), path.log, s.offset)
      modifies this`stateFile, this`journal
      ensures Valid() && old(journal) <= journal
      ensures ok ==> LoadState() == s
      ensures ok ==>
        Now() == ShipperSchedule.TakeUp(old(Now()), path.log, old(At()).log.None? && s.offset == old(At()).offset)
      ensures !ok ==> journal == old(journal) && stateFile == old(stateFile)
      ensures Earned(logs, content, old(journal), journal)
    {
      ghost var before := journal;
      TakingUpPasses(logs, start, content, before, path.log, s.offset);
      ok := PersistState(s, path.log);
      if ok {
        TakenUpPassesNothing(start, before, path.log, s.offset);
      }
    }

    /** Read the rotated file to its end, then start the new one. */
    method DrainAndSwitch(path: AuditFile) returns (poll: Poll, ghost round: Round)
      requires Valid() && Synced() && Tailing() && Knows(path) && NotEarlier(path)
      requires path.identity != file.identity && file.visible == |file.all| && At().offset <= file.visible
      modifies this, file
      ensures Valid() && Synced() && old(journal) <= journal && rounds == old(rounds)
      ensures file != null ==> file == old(file) && Tailing() && At().offset <= |file.all|
      ensures round.Found? && round.log == path.log && !round.inPlace && Now() == ShipperSchedule.Poll(logs, old(Now()), round)
      // without a signal a rotated file is left only at its very end
      ensures running && round.saved ==> ShipperSchedule.Read(logs, old(Now()), round.records).at.offset == |old(file).all|
      ensures Earned(logs, content, old(journal), journal)
    {
      hide Disciplined, Passed, Began, Durable, NextFinished, GoodStart, Finished, Tagged, Earned;
      ghost var exhausted, records, seen;
      poll, exhausted, records, seen := ShipAvailable(true);
      if poll.OsError? {
        state := LoadState();
        round := Found(path.log, false, false, true, records, false, false);
        return;
      }
      ghost var drained := journal;
      ReadIsBetween(logs, old(Now()), records);
      file := null;
      if poll.Stopped? {
        round := Found(path.log, false, false, true, records, true, false);
        return;
      }
      var taken := TakeUp(State(0, Some(path.identity)), path);
      EarnedComposes(logs, content, old(journal), drained, journal);
      state := if taken then State(0, Some(path.identity)) else LoadState();
      if !taken {
        poll := OsError;
      }
      round := Found(path.log, false, taken, true, records, true, false);
    }

    /**
     One round of the main loop. `path` is what the log's name refers to now, or
     null when it cannot be looked up; a rename rotation has left the open file
     complete.
     */
    method PollOnce(path: AuditFile?) returns (poll: Poll)
      requires Valid() && Synced() && OnSchedule() && (file != null ==> Tailing() && At().offset <= |file.all|)
      requires path != null ==> Knows(path) && Recognisable(path) && NotEarlier(path)
      requires path != null && file != null && path.log == file.log ==> path == file
      requires path != null && file != null && path.identity != file.identity ==> file.visible == |file.all|
      modifies this, file, path
      ensures Valid() && Synced() && OnSchedule() && old(journal) <= journal
      ensures file != null ==> Tailing() && At().offset <= |file.all|
      ensures |rounds| == |old(rounds)| + 1 && old(rounds) < rounds
      ensures path == null ==> rounds == old(rounds) + [Missing]
      ensures path != null ==> rounds[|old(rounds)|].Found? && rounds[|old(rounds)|].log == path.log
      // without a signal, an open file that was renamed away is left only at its very end
      ensures path != null && running && rounds[|old(rounds)|].saved && old(file) != null && path.identity != old(file).identity ==>
        ShipperSchedule.Read(logs, old(Now()), rounds[|old(rounds)|].records).at.offset == |old(file).all|
      // every record moved past was treated as its bytes and its answers ask for
      ensures Earned(logs, content, old(journal), journal)
      ensures old(Earned(logs, content, [], journal)) ==> Earned(logs, content, [], journal)
    {
      hide Earned;
      ghost var round := Missing;
      if path == null {
        poll := Idle;
        OnlyHandled(logs, content, journal, journal);
      } else {
        poll, round := Look(path);
      }
      if old(Earned(logs, content, [], journal)) {
        EarnedComposes(logs, content, [], old(journal), journal);
      }
      OneMoreRound(logs, Fresh(start), rounds, round);
      rounds := rounds + [round];
    }

    /** After any number of rounds: whether anything was lost, read off the schedule. */
    lemma NothingLostIff()
      requires Valid() && OnSchedule()
      ensures Lossless(logs, Now()) <==> forall k :: 0 <= k < |rounds| ==> !LosesAt(logs, Fresh(start), rounds, k)
    {
      if start.log.Some? {
        assert Between(logs[start.log.value], start.offset, start.offset) == [];
        assert Before(logs, start, start.log.value) == [];
      }
      LosslessIffNothingLeftUnread(logs, Fresh(start), rounds);
    }

    /** What a round does once the path has been looked up. */
    method Look(path: AuditFile) returns (poll: Poll, ghost round: Round)
      requires Valid() && Synced() && (file != null ==> Tailing() && At().offset <= |file.all|)
      requires Knows(path) && Recognisable(path) && NotEarlier(path)
      requires file != null && path.log == file.log ==> path == file
      requires file != null && path.identity != file.identity ==> file.visible == |file.all|
      modifies this, file, path
      ensures Valid() && Synced() && old(journal) <= journal && rounds == old(rounds)
      ensures file != null ==> Tailing() && At().offset <= |file.all|
      ensures round.Found? && round.log == path.log && Possible(logs, old(Now()), round)
      ensures Now() == ShipperSchedule.Poll(logs, old(Now()), round)
      ensures running && round.saved && old(file) != null && path.identity != old(file).identity ==>
        ShipperSchedule.Read(logs, old(Now()), round.records).at.offset == |old(file).all|
      ensures Earned(logs, content, old(journal), journal)
    {
      hide Disciplined, Passed, Began, Durable, NextRecord, NextFinished, GoodStart, ShipperSchedule.Read, Finished, Tagged, Earned;
      if file != null && path.identity != file.identity {
        poll, round := DrainAndSwitch(path);
        return;
      }
      var ready: bool;
      ready, round := GoOnWith(path);
      if !ready {
        state := LoadState();
        return OsError, round;
      }
      ghost var taken := journal;
      ghost var exhausted, records, seen;
      poll, exhausted, records, seen := ShipAvailable(false);
      EarnedComposes(logs, content, old(journal), taken, journal);
      round := round.(records := records);
      if poll.OsError? {
        state := LoadState();
      }
    }

    /** Open the path, take it up anew if it was truncated, or stay with it. */
    method GoOnWith(path: AuditFile) returns (ready: bool, ghost round: Round)
      requires Valid() && Synced() && (file != null ==> Tailing() && At().offset <= |file.all|)
      requires Knows(path) && Recognisable(path) && NotEarlier(path)
      requires file != null ==> path.identity == file.identity && (path.log == file.log ==> path == file)
      modifies this`state, this`stateFile, this`journal, this`file
      ensures Valid() && old(journal) <= journal
      ensures file != null ==> Tailing() && At().offset <= |file.all|
      ensures round.Found? && round.log == path.log && Possible(logs, old(Now()), round)
      ensures ready ==> Synced() && file == path && At().offset <= path.visible
      ensures ready ==> forall n :: ShipperSchedule.Poll(logs, old(Now()), round.(records := n)) == ShipperSchedule.Read(logs, Now(), n)
      ensures !ready ==> Now() == ShipperSchedule.Poll(logs, old(Now()), round)
      ensures Earned(logs, content, old(journal), journal)
    {
      hide Disciplined, Passed, Began, Durable, NextRecord, NextFinished, GoodStart, ShipperSchedule.Read, Finished, Tagged, Earned;
      var size := path.visible;
      if file == null {
        ghost var kept;
        ready, kept := StateForOpenedFile(path, size);
        var readable: bool := *;
        round := Found(path.log, false, ready, readable, 0, true, kept);
        ready := ready && readable;
      } else if size < state.offset {
        ready := TakeUp(State(0, Some(path.identity)), path);
        round := Found(path.log, true, ready, true, 0, true, false);
        if ready {
          state := State(0, Some(path.identity));
        }
      } else {
        OnlyHandled(logs, content, journal, journal);
        ready, round := true, Found(path.log, false, true, true, 0, true, false);
      }
      if ready {
        file := path;
      }
    }
  }

  lemma OneMoreRound(logs: Logs, start: Tailer, rounds: seq<Round>, r: Round)
    requires PossibleAll(logs, start, rounds) && Possible(logs, PollAll(logs, start, rounds), r)
    ensures PossibleAll(logs, start, rounds + [r])
    ensures PollAll(logs, start, rounds + [r]) == ShipperSchedule.Poll(logs, PollAll(logs, start, rounds), r)
  {
    assert (rounds + [r])[..|rounds|] == rounds;
  }

  /** A saved offset passes the record just handed on. */
  lemma SavedPasses(start: Cursor, handled: seq<Effect>, log: nat, span: Span)
    requires Advances(Durable(start, handled), handled, log, span.end) && handled[|handled| - 1].span == span
    ensures var journal := handled + [Saved(log, span.end)];
            && Passed(start, journal) == Passed(start, handled) + [(log, span)]
            && (Began(start, handled).log.Some? ==> Began(start, journal) == Began(start, handled))
            && Durable(start, journal) == Cursor(Some(log), span.end)
  {
    assert (handled + [Saved(log, span.end)])[..|handled|] == handled;
  }

  lemma TakenUpPassesNothing(start: Cursor, before: seq<Effect>, log: nat, offset: nat)
    requires !Advances(Durable(start, before), before, log, offset)
    ensures var journal := before + [Saved(log, offset)];
            && Passed(start, journal) == Passed(start, before)
            && Began(start, journal) == (if Began(start, before).log.Some? then Began(start, before) else Cursor(Some(log), offset))
            && Durable(start, journal) == Cursor(Some(log), offset)
  {
    assert (before + [Saved(log, offset)])[..|before|] == before;
  }

  /** What has been passed since `before` ends at line ends. */
  ghost predicate WholeLines(before: Tailer, now: Tailer) {
    before.passed <= now.passed && forall i :: |before.passed| <= i < |now.passed| ==> !now.passed[i].1.kind.Truncated?
  }

  lemma NoneYet(now: Tailer)
    ensures WholeLines(now, now)
  {
  }

  lemma OneMoreLine(logs: Logs, before: Tailer, earlier: Tailer, span: Span)
    requires earlier.at.log.Some? && earlier.at.log.value in logs
    requires NextRecord(logs[earlier.at.log.value], earlier.at.offset) == Some(span)
    ensures WholeLines(before, earlier) && !span.kind.Truncated? ==> WholeLines(before, ReadOne(logs, earlier))
  {
  }

  lemma LinesAreSplit(logs: Logs, before: Tailer, records: nat, visible: nat)
    requires before.at.log.Some? && before.at.log.value in logs
    requires var now := ShipperSchedule.Read(logs, before, records);
             var log := logs[before.at.log.value];
             && WholeLines(before, now) && now.at.offset <= visible <= |log| && NextFinished(log[..visible], now.at.offset).None?
    ensures ShipperSchedule.Read(logs, before, records).passed ==
      before.passed + Tagged(before.at.log.value, Finished(logs[before.at.log.value][..visible], before.at.offset))
  {
    var n := before.at.log.value;
    var now := ShipperSchedule.Read(logs, before, records);
    var spans := Between(logs[n], before.at.offset, now.at.offset);
    ReadIsBetween(logs, before, records);
    forall r | r in spans ensures !r.kind.Truncated? {
      var i :| 0 <= i < |spans| && spans[i] == r;
      assert now.passed[|before.passed| + i] == (n, r);
    }
    BetweenIsFinished(logs[n], before.at.offset, now.at.offset, visible);
  }

  /** No unfinished line was handed on since. */
  ghost predicate NoFragments(before: seq<Effect>, after: seq<Effect>) {
    forall k :: |before| <= k < |after| && after[k].Handled? ==> !after[k].span.kind.Truncated?
  }

  /** Handing on moves neither the offset nor what is below it. */
  lemma {:induction false} HandledOnlyAdds(start: Cursor, before: seq<Effect>, after: seq<Effect>, log: nat, span: Span)
    requires before <= after
    requires forall i :: |before| <= i < |after| ==> after[i].Handled? && after[i].log == log && after[i].span == span
    ensures Durable(start, after) == Durable(start, before) && Passed(start, after) == Passed(start, before)
    ensures Began(start, after) == Began(start, before)
    decreases |after|
  {
    if |after| > |before| {
      HandledOnlyAdds(start, before, after[..|after| - 1], log, span);
    } else {
      assert after == before;
    }
  }
}
