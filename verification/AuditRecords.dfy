/** How an audit log divides into records, whatever the reads that discover them. */
module AuditRecords {
  import opened Wrappers

  type byte = x: int | 0 <= x < 256

  const NEWLINE: byte := 10
  const MAX_LINE_BYTES: nat := 1024 * 1024

  datatype Kind = Line | TooLong | Truncated

  /** One record: the bytes from start to end, its line break included. */
  datatype Span = Span(start: nat, end: nat, kind: Kind)

  /** The position after the first line break at or after s. */
  function LineEnd(log: seq<byte>, s: nat): (e: Option<nat>)
    ensures e.Some? ==> s < e.value <= |log|
    decreases |log| - s
  {
    if s >= |log| then None
    else if log[s] == NEWLINE then Some(s + 1)
    else LineEnd(log, s + 1)
  }

  /** The finished record at s. */
  function NextFinished(log: seq<byte>, s: nat): Option<Span> {
    match LineEnd(log, s)
    case None => None
    case Some(e) => Some(Span(s, e, if e - s <= MAX_LINE_BYTES then Line else TooLong))
  }

  /** The record at s of a log that will not grow: what is left may lack its line break. */
  function NextRecord(log: seq<byte>, s: nat): (r: Option<Span>)
    ensures r.Some? ==> r.value.start == s < r.value.end <= |log|
  {
    match NextFinished(log, s)
    case Some(span) => Some(span)
    case None => if s < |log| then Some(Span(s, |log|, Truncated)) else None
  }

  function Finished(log: seq<byte>, s: nat): seq<Span>
    decreases |log| - s
  {
    match NextFinished(log, s)
    case None => []
    case Some(span) => [span] + Finished(log, span.end)
  }

  function AllRecords(log: seq<byte>, s: nat): seq<Span>
    decreases |log| - s
  {
    match NextRecord(log, s)
    case None => []
    case Some(span) => [span] + AllRecords(log, span.end)
  }

  lemma {:induction false} LineEndIsFirst(log: seq<byte>, s: nat, e: nat)
    ensures LineEnd(log, s) == Some(e) <==>
      s < e <= |log| && log[e - 1] == NEWLINE && forall i :: s <= i < e - 1 ==> log[i] != NEWLINE
    decreases |log| - s
  {
    if s < |log| && log[s] != NEWLINE {
      LineEndIsFirst(log, s + 1, e);
    }
  }

  lemma NoLineEnd(log: seq<byte>, s: nat)
    ensures LineEnd(log, s).None? <==> forall i :: s <= i < |log| ==> log[i] != NEWLINE
    decreases |log| - s
  {
    if s < |log| && log[s] != NEWLINE {
      NoLineEnd(log, s + 1);
    }
  }

  /** A record finished by some moment is the same record ever after. */
  lemma FinishedStays(log: seq<byte>, visible: nat, s: nat)
    requires visible <= |log| && NextFinished(log[..visible], s).Some?
    ensures NextFinished(log, s) == NextFinished(log[..visible], s)
  {
    var e := LineEnd(log[..visible], s).value;
    LineEndIsFirst(log[..visible], s, e);
    LineEndIsFirst(log, s, e);
  }

  /** Polling earlier or later never changes how the log divides: it only finds fewer or more records. */
  lemma {:induction false} FinishedGrows(log: seq<byte>, early: nat, late: nat, s: nat)
    requires early <= late <= |log|
    ensures Finished(log[..early], s) <= Finished(log[..late], s)
    decreases early - s
  {
    if NextFinished(log[..early], s).Some? {
      assert log[..late][..early] == log[..early];
      FinishedStays(log[..late], early, s);
      FinishedGrows(log, early, late, NextFinished(log[..early], s).value.end);
    }
  }

  /** The finished records and the rest of the line make up the log. */
  lemma {:induction false} RecordsMakeUpTheLog(log: seq<byte>, s: nat)
    requires s <= |log|
    ensures Bytes(log, AllRecords(log, s)) == log[s..]
    ensures Finished(log, s) <= AllRecords(log, s)
    ensures |AllRecords(log, s)| <= |Finished(log, s)| + 1
    decreases |log| - s
  {
    match NextRecord(log, s) {
      case None =>
      case Some(span) =>
        RecordsMakeUpTheLog(log, span.end);
        assert log[s..] == log[s..span.end] + log[span.end..];
        assert AllRecords(log, s)[1..] == AllRecords(log, span.end);
    }
  }

  function Bytes(log: seq<byte>, spans: seq<Span>): seq<byte> {
    if spans == [] then []
    else (if spans[0].start <= spans[0].end <= |log| then log[spans[0].start..spans[0].end] else []) + Bytes(log, spans[1..])
  }

  // ---------------------------------------------------------------------
  // A stretch of a log, from one record boundary to another

  ghost predicate Reaches(log: seq<byte>, s: nat, t: nat)
    decreases |log| - s
  {
    s == t || (NextRecord(log, s).Some? && NextRecord(log, s).value.end <= t && Reaches(log, NextRecord(log, s).value.end, t))
  }

  function Between(log: seq<byte>, s: nat, t: nat): seq<Span>
    decreases |log| - s
  {
    if s >= t || NextRecord(log, s).None? then []
    else [NextRecord(log, s).value] + Between(log, NextRecord(log, s).value.end, t)
  }

  lemma {:induction false} OneRecordFurther(log: seq<byte>, s: nat, t: nat)
    requires Reaches(log, s, t) && NextRecord(log, t).Some?
    ensures Reaches(log, s, NextRecord(log, t).value.end)
    ensures Between(log, s, NextRecord(log, t).value.end) == Between(log, s, t) + [NextRecord(log, t).value]
    decreases |log| - s
  {
    var end := NextRecord(log, t).value.end;
    if s == t {
      assert Between(log, end, end) == [];
    } else {
      OneRecordFurther(log, NextRecord(log, s).value.end, t);
    }
  }

  lemma {:induction false} BetweenToTheEnd(log: seq<byte>, s: nat)
    ensures Between(log, s, |log|) == AllRecords(log, s)
    decreases |log| - s
  {
    if NextRecord(log, s).Some? {
      BetweenToTheEnd(log, NextRecord(log, s).value.end);
    }
  }

  /**
   Tailing is splitting: a stretch of finished records that goes on until
   nothing further is finished in what is visible holds exactly the finished
   records of what is visible, wherever the polls and reads in between fell.
   */
  lemma {:induction false} BetweenIsFinished(log: seq<byte>, s: nat, t: nat, visible: nat)
    requires Reaches(log, s, t) && t <= visible <= |log|
    requires forall r :: r in Between(log, s, t) ==> !r.kind.Truncated?
    requires NextFinished(log[..visible], t).None?
    ensures Between(log, s, t) == Finished(log[..visible], s)
    decreases |log| - s
  {
    if s != t {
      var r := NextRecord(log, s).value;
      assert Between(log, s, t) == [r] + Between(log, r.end, t);
      assert r in Between(log, s, t);
      LineEndIsFirst(log, s, r.end);
      LineEndIsFirst(log[..visible], s, r.end);
      assert NextFinished(log[..visible], s) == Some(r);
      assert forall q :: q in Between(log, r.end, t) ==> q in Between(log, s, t);
      BetweenIsFinished(log, r.end, t, visible);
    }
  }
}
