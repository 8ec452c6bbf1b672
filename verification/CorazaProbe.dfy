/**
 The readiness probe: which of the wanted applications did the agent answer for?
 It reads off a connection; a read that times out has already taken what had
 arrived of its frame.
 */
module CorazaProbe {
  import opened Wrappers
  import opened Spop

  const AGENT_HELLO: byte := 101
  const AGENT_DISCONNECT: byte := 102
  const ACK: byte := 103

  /** What a read yields: a frame, a timeout, a lost connection, or a frame that cannot be taken apart. */
  datatype Reply = Answer(frameType: byte, streamId: nat) | Late | Broken | Garbled

  /** One read, and how many of the waiting bytes it took. */
  datatype Reading = Reading(reply: Reply, used: nat)

  /** A connection attempt; the first read is for the agent's hello, read i + 1 follows message i. */
  datatype Attempt = Attempt(connected: bool, readings: seq<Reading>)

  function ReplyTo(attempt: Attempt, i: nat): Reply {
    if i < |attempt.readings| then attempt.readings[i].reply else Broken
  }

  /** The attempt goes on after its read i. */
  predicate GoesOn(attempt: Attempt, i: nat) {
    match ReplyTo(attempt, i)
    case Answer(frameType, _) => if i == 0 then frameType == AGENT_HELLO else frameType != AGENT_DISCONNECT
    case Late => i > 0
    case Broken => false
    case Garbled => false
  }

  predicate Completes(attempt: Attempt, messages: nat) {
    attempt.connected && forall i :: 0 <= i <= messages ==> GoesOn(attempt, i)
  }

  /** The read that followed message i returned the ACK of message i's own stream. */
  predicate AckedInTurn(attempt: Attempt, i: nat) {
    ReplyTo(attempt, i + 1) == Answer(ACK, i + 1)
  }

  /** An attempt's result; a garbled frame is an exception nobody catches. */
  datatype Outcome = Served(names: set<string>) | Failed | Crashed

  /** Whether the read that ends the attempt is one that cannot be taken apart. */
  predicate EndsGarbled(attempt: Attempt, messages: nat) {
    attempt.connected && exists k :: 0 <= k <= messages && EndsGarbledAt(attempt, k)
  }

  predicate EndsGarbledAt(attempt: Attempt, k: nat) {
    ReplyTo(attempt, k).Garbled? && forall i :: 0 <= i < k ==> GoesOn(attempt, i)
  }

  /** The names among the first n whose turn was answered. */
  function AckedNames(names: seq<string>, attempt: Attempt, n: nat): set<string>
    requires n <= |names|
  {
    set i | 0 <= i < n && AckedInTurn(attempt, i) :: names[i]
  }

  function OutcomeOf(names: seq<string>, attempt: Attempt): Outcome {
    if Completes(attempt, |names|) then Served(AckedNames(names, attempt, |names|))
    else if EndsGarbled(attempt, |names|) then Crashed
    else Failed
  }

  predicate Distinct(names: seq<string>) {
    forall i, j :: 0 <= i < j < |names| ==> names[i] != names[j]
  }

  // ---------------------------------------------------------------------
  // Reads and the bytes they are read from

  /** The read takes its bytes off the front of the stream; an answer is the frame that stood there. */
  predicate Fits(stream: seq<byte>, r: Reading) {
    && r.used <= |stream|
    && (r.reply.Answer? ==> ParseFrame(stream) == Some((r.reply.frameType, r.reply.streamId, r.used)))
  }

  ghost predicate ReadOff(stream: seq<byte>, readings: seq<Reading>) {
    readings != [] ==> Fits(stream, readings[0]) && ReadOff(stream[readings[0].used..], readings[1..])
  }

  lemma {:induction false} ReadOffMore(stream: seq<byte>, readings: seq<Reading>, left: seq<byte>, r: Reading)
    requires ReadOff(stream, readings) && LeftAfter(stream, readings) == left && Fits(left, r)
    ensures ReadOff(stream, readings + [r]) && LeftAfter(stream, readings + [r]) == left[r.used..]
  {
    if readings == [] {
      assert readings + [r] == [r] && [r][1..] == [];
    } else {
      ReadOffMore(stream[readings[0].used..], readings[1..], left, r);
      assert (readings + [r])[1..] == readings[1..] + [r];
    }
  }

  ghost function LeftAfter(stream: seq<byte>, readings: seq<Reading>): seq<byte>
    requires ReadOff(stream, readings)
  {
    if readings == [] then stream else LeftAfter(stream[readings[0].used..], readings[1..])
  }

  method ReadReply(conn: Connection) returns (r: Reading)
    modifies conn
    ensures Fits(old(conn.incoming), r) && conn.incoming == old(conn.incoming)[r.used..]
  {
    ghost var before := conn.incoming;
    var size := |conn.incoming|;
    var frame := conn.ReadFrame();
    var used := size - |conn.incoming|;
    match frame {
      case Success((frameType, streamId)) => r := Reading(Answer(frameType, streamId), used);
      case Failure(error) =>
        r := Reading(match error case ReadTimeout => Late case Malformed => Garbled case _ => Broken, used);
    }
  }

  /** Say hello, then ask for one name after the other; sending may fail at any time. */
  method ProbeOnce(names: seq<string>, conn: Connection?) returns (r: Outcome, ghost attempt: Attempt)
    modifies conn
    ensures r == OutcomeOf(names, attempt)
    ensures attempt.connected <==> conn != null
    ensures conn != null ==> ReadOff(old(conn.incoming), attempt.readings)
  {
    attempt := Attempt(conn != null, []);
    if conn == null {
      return Failed, attempt;
    }
    var sent: bool := *;
    if !sent {
      NoMoreReads(attempt, 0);
      StopsHere(names, attempt, 0);
      return Failed, attempt;
    }
    var hello := ReadReply(conn);
    attempt := Attempt(true, [hello]);
    FirstRead(old(conn.incoming), hello);
    if !hello.reply.Answer? || hello.reply.frameType != AGENT_HELLO {
      StopsHere(names, attempt, 0);
      return if hello.reply.Garbled? then Crashed else Failed, attempt;
    }
    r, attempt := AskForNames(names, conn, old(conn.incoming), hello);
  }

  lemma FirstRead(stream: seq<byte>, hello: Reading)
    requires Fits(stream, hello)
    ensures ReadOff(stream, [hello]) && LeftAfter(stream, [hello]) == stream[hello.used..]
  {
    assert [] + [hello] == [hello];
    ReadOffMore(stream, [], stream, hello);
  }

  /** The loop over the names, once the agent's hello has been read. */
  method AskForNames(names: seq<string>, conn: Connection, ghost stream: seq<byte>, ghost hello: Reading)
    returns (r: Outcome, ghost attempt: Attempt)
    requires hello.reply.Answer? && hello.reply.frameType == AGENT_HELLO
    requires ReadOff(stream, [hello]) && LeftAfter(stream, [hello]) == conn.incoming
    modifies conn
    ensures r == OutcomeOf(names, attempt) && attempt.connected && ReadOff(stream, attempt.readings)
  {
    hide OutcomeOf, AckedNames, ReadOff, LeftAfter, ReplyTo, GoesOn, Fits, GoesOnBefore;
    attempt := Attempt(true, [hello]);
    var served: set<string> := {};
    HelloGoesOn(names, attempt);
    for i := 0 to |names|
      invariant |attempt.readings| == i + 1 && attempt.connected
      invariant ReadOff(stream, attempt.readings) && LeftAfter(stream, attempt.readings) == conn.incoming
      invariant GoesOnBefore(attempt, i + 1)
      invariant served == AckedNames(names, attempt, i)
    {
      var sent: bool := *;
      if !sent {
        NoMoreReads(attempt, i + 1);
        StopsHere(names, attempt, i + 1);
        return Failed, attempt;
      }
      var reading := ReadReply(conn);
      ReadOffMore(stream, attempt.readings, LeftAfter(stream, attempt.readings), reading);
      OneMoreRead(names, attempt, i, reading);
      attempt := attempt.(readings := attempt.readings + [reading]);
      if reading.reply.Broken? || (reading.reply.Answer? && reading.reply.frameType == AGENT_DISCONNECT) {
        StopsHere(names, attempt, i + 1);
        return Failed, attempt;
      }
      if reading.reply.Garbled? {
        StopsHere(names, attempt, i + 1);
        return Crashed, attempt;
      }
      if reading.reply.Answer? && reading.reply.frameType == ACK && reading.reply.streamId == i + 1 {
        served := served + {names[i]};
      }
    }
    AllReadsDone(names, attempt);
    r := Served(served);
  }

  ghost predicate GoesOnBefore(attempt: Attempt, k: nat) {
    forall i :: 0 <= i < k ==> GoesOn(attempt, i)
  }

  lemma HelloGoesOn(names: seq<string>, attempt: Attempt)
    requires |attempt.readings| == 1 && attempt.readings[0].reply.Answer? && attempt.readings[0].reply.frameType == AGENT_HELLO
    ensures GoesOnBefore(attempt, 1) && AckedNames(names, attempt, 0) == {}
  {
  }

  lemma NoMoreReads(attempt: Attempt, k: nat)
    requires |attempt.readings| <= k
    ensures ReplyTo(attempt, k) == Broken && !GoesOn(attempt, k)
  {
  }

  lemma OneMoreRead(names: seq<string>, attempt: Attempt, i: nat, reading: Reading)
    requires i < |names| && |attempt.readings| == i + 1 && GoesOnBefore(attempt, i + 1)
    ensures var more := attempt.(readings := attempt.readings + [reading]);
            && GoesOnBefore(more, i + 1) && ReplyTo(more, i + 1) == reading.reply
            && (GoesOn(more, i + 1) <==> reading.reply.Late? || (reading.reply.Answer? && reading.reply.frameType != AGENT_DISCONNECT))
            && (GoesOn(more, i + 1) ==> GoesOnBefore(more, i + 2))
            && AckedNames(names, more, i + 1) ==
                 AckedNames(names, attempt, i) + (if reading.reply == Answer(ACK, i + 1) then {names[i]} else {})
  {
    var more := attempt.(readings := attempt.readings + [reading]);
    forall j | 0 <= j <= i ensures ReplyTo(more, j) == ReplyTo(attempt, j) && (GoesOn(attempt, j) ==> GoesOn(more, j)) {
    }
    forall j | 0 <= j < i ensures AckedInTurn(more, j) <==> AckedInTurn(attempt, j) {
    }
    assert AckedInTurn(more, i) <==> reading.reply == Answer(ACK, i + 1);
  }

  lemma AllReadsDone(names: seq<string>, attempt: Attempt)
    requires attempt.connected && GoesOnBefore(attempt, |names| + 1)
    ensures OutcomeOf(names, attempt) == Served(AckedNames(names, attempt, |names|))
  {
  }

  /** The read an attempt stops at decides its outcome. */
  lemma StopsHere(names: seq<string>, attempt: Attempt, k: nat)
    requires attempt.connected && k <= |names| && !GoesOn(attempt, k) && GoesOnBefore(attempt, k)
    ensures OutcomeOf(names, attempt) == if ReplyTo(attempt, k).Garbled? then Crashed else Failed
  {
    assert !Completes(attempt, |names|);
    forall j | 0 <= j <= |names| && EndsGarbledAt(attempt, j) ensures j == k {
      assert !GoesOn(attempt, j);
    }
    assert ReplyTo(attempt, k).Garbled? ==> EndsGarbledAt(attempt, k);
  }

  function Without(names: seq<string>, served: set<string>): seq<string> {
    if names == [] then []
    else (if names[0] in served then [] else [names[0]]) + Without(names[1..], served)
  }

  /** The names an attempt removes from `pending`: none when it errs. */
  function ServedBy(pending: seq<string>, attempt: Attempt): set<string> {
    match OutcomeOf(pending, attempt)
    case Served(names) => names
    case _ => {}
  }

  function Pending(names: seq<string>, attempts: seq<Attempt>): seq<string> {
    if attempts == [] then names
    else
      var before := Pending(names, attempts[..|attempts| - 1]);
      Without(before, ServedBy(before, attempts[|attempts| - 1]))
  }

  method Unserved(pending: seq<string>, served: set<string>) returns (left: seq<string>)
    ensures left == Without(pending, served)
  {
    left := [];
    for i := 0 to |pending|
      invariant left + Without(pending[i..], served) == Without(pending, served)
    {
      if pending[i] !in served {
        left := left + [pending[i]];
      }
    }
  }

  /** What the attempts read is what stood on their connections. */
  twostate predicate ReadFrom(conns: seq<Connection?>, attempts: seq<Attempt>)
    requires |attempts| <= |conns|
  {
    forall k :: 0 <= k < |attempts| ==>
      && (attempts[k].connected <==> conns[k] != null)
      && (conns[k] != null ==> ReadOff(old(conns[k].incoming), attempts[k].readings))
  }

  /**
   One connection for every attempt the deadline leaves room for, null if it
   cannot be made; the first attempt is made before the clock is looked at.
   None when an attempt raised what is not caught.
   */
  method WaitUntilServed(names: seq<string>, conns: seq<Connection?>) returns (missing: Option<set<string>>, ghost attempts: seq<Attempt>)
    requires conns != [] && forall i, j :: 0 <= i < j < |conns| ==> conns[i] != conns[j] || conns[i] == null
    modifies set c | c in conns && c != null
    ensures |attempts| <= |conns| && ReadFrom(conns, attempts)
    ensures missing.Some? ==> missing.value == set n | n in Pending(names, attempts)
    ensures missing.Some? && missing.value != {} ==> |attempts| == |conns|
    ensures missing.None? ==>
      attempts != [] && OutcomeOf(Pending(names, attempts[..|attempts| - 1]), attempts[|attempts| - 1]).Crashed?
  {
    var pending, made := names, 0;
    attempts := [];
    while pending != []
      invariant made == |attempts|
      invariant |attempts| <= |conns| && (pending != [] ==> |attempts| < |conns|)
      invariant pending == Pending(names, attempts)
      invariant ReadFrom(conns, attempts)
      invariant forall k :: |attempts| <= k < |conns| && conns[k] != null ==> conns[k].incoming == old(conns[k].incoming)
      decreases |conns| - |attempts|
    {
      hide OutcomeOf, Without, ReadOff;
      ghost var before := attempts;
      var probed: Outcome;
      ghost var attempt;
      probed, attempt := ProbeOnce(pending, conns[made]);
      attempts, made := attempts + [attempt], made + 1;
      assert attempts[..made - 1] == before;
      if probed.Crashed? {
        return None, attempts;
      }
      pending := Unserved(pending, if probed.Served? then probed.names else {});
      if made == |conns| {
        break;
      }
    }
    missing := Some(set n | n in pending);
  }

  lemma {:induction false} WithoutMembers(names: seq<string>, served: set<string>)
    ensures forall n :: n in Without(names, served) <==> n in names && n !in served
    ensures Distinct(names) ==> Distinct(Without(names, served))
  {
    if names != [] {
      WithoutMembers(names[1..], served);
    }
  }

  /** `pending` only shrinks, and stays free of duplicates. */
  lemma {:induction false} PendingOnlyShrinks(names: seq<string>, attempts: seq<Attempt>, k: nat)
    requires Distinct(names) && k <= |attempts|
    ensures Distinct(Pending(names, attempts))
    ensures forall n :: n in Pending(names, attempts) ==> n in Pending(names, attempts[..k])
    decreases |attempts|
  {
    if k == |attempts| {
      assert attempts[..k] == attempts;
    }
    if attempts != [] {
      var last := |attempts| - 1;
      var init := attempts[..last];
      PendingOnlyShrinks(names, init, if k <= last then k else last);
      WithoutMembers(Pending(names, init), ServedBy(Pending(names, init), attempts[last]));
      if k <= last {
        assert init[..k] == attempts[..k];
      }
    }
  }

  /**
   A completed attempt whose read for this name returned the ACK of the stream
   this very attempt gave it.
   */
  ghost predicate Acknowledged(names: seq<string>, attempts: seq<Attempt>, k: nat, name: string)
    requires k < |attempts|
  {
    var pending := Pending(names, attempts[..k]);
    && Completes(attempts[k], |pending|)
    && exists i :: 0 <= i < |pending| && pending[i] == name && AckedInTurn(attempts[k], i)
  }

  /**
   However late, missing or reordered the replies: a name is still missing
   exactly when no completed attempt read an ACK for it in its own turn.
   */
  lemma {:induction false} MissingIsNeverAcknowledged(names: seq<string>, attempts: seq<Attempt>, name: string)
    ensures name in Pending(names, attempts) <==>
      name in names && forall k :: 0 <= k < |attempts| ==> !Acknowledged(names, attempts, k, name)
    decreases |attempts|
  {
    if attempts != [] {
      var last := |attempts| - 1;
      var init := attempts[..last];
      var before := Pending(names, init);
      hide Completes, AckedInTurn, Without;
      MissingIsNeverAcknowledged(names, init, name);
      forall k | 0 <= k < last
        ensures Acknowledged(names, init, k, name) <==> Acknowledged(names, attempts, k, name)
      {
        assert init[..k] == attempts[..k];
      }
      WithoutMembers(before, ServedBy(before, attempts[last]));
      assert Acknowledged(names, attempts, last, name) <==> name in ServedBy(before, attempts[last]);
    }
  }

  // ---------------------------------------------------------------------
  // What the agent sent

  /** The answers read, in order. */
  function Answers(readings: seq<Reading>): seq<(byte, nat)> {
    if readings == [] then []
    else (if readings[0].reply.Answer? then [(readings[0].reply.frameType, readings[0].reply.streamId)] else []) + Answers(readings[1..])
  }

  /** No timeout struck inside a frame: every read given up on, but for the last one, had taken nothing. */
  predicate Clean(readings: seq<Reading>) {
    forall i :: 0 <= i < |readings| - 1 && !readings[i].reply.Answer? ==> readings[i].used == 0
  }

  /**
   The agent sends whole frames and perhaps the start of one more. If no
   timeout strikes inside a frame, the answers read are the first of the frames
   it sent, in order, each once.
   */
  lemma {:induction false} AnswersAreWhatWasSent(frames: seq<Frame>, rest: seq<byte>, readings: seq<Reading>)
    requires AllSendable(frames) && ParseFrame(rest).None?
    requires ReadOff(Wire(frames) + rest, readings) && Clean(readings)
    ensures Answers(readings) <= Headers(frames)
    decreases |readings|
  {
    if readings != [] {
      var stream, r := Wire(frames) + rest, readings[0];
      assert frames == [] ==> stream == rest;
      if !r.reply.Answer? {
        if |readings| > 1 {
          assert stream[0..] == stream;
          AnswersAreWhatWasSent(frames, rest, readings[1..]);
        } else {
          assert readings[1..] == [];
        }
      } else {
        FirstFrame(frames, rest);
        hide ParseFrame, FrameBytes;
        AnswersAreWhatWasSent(frames[1..], rest, readings[1..]);
      }
    }
  }

  lemma FirstFrame(frames: seq<Frame>, rest: seq<byte>)
    requires AllSendable(frames) && frames != []
    ensures ParseFrame(Wire(frames) + rest) == Some((frames[0].frameType, frames[0].streamId, |FrameBytes(frames[0])|))
    ensures (Wire(frames) + rest)[|FrameBytes(frames[0])|..] == Wire(frames[1..]) + rest
  {
    hide *;
    WireUnfolds(frames);
    var first, later := FrameBytes(frames[0]), Wire(frames[1..]);
    assert (first + later) + rest == first + (later + rest);
    ReadBackOne(frames[0], later + rest);
    assert (first + (later + rest))[|first|..] == later + rest;
  }

  lemma WireUnfolds(frames: seq<Frame>)
    requires AllSendable(frames) && frames != []
    ensures Sendable(frames[0]) && AllSendable(frames[1..])
    ensures Wire(frames) == FrameBytes(frames[0]) + Wire(frames[1..])
  {
    hide FrameBytes, Sendable;
  }

  lemma {:induction false} AnswerIsAmong(readings: seq<Reading>, i: nat)
    requires i < |readings| && readings[i].reply.Answer?
    ensures (readings[i].reply.frameType, readings[i].reply.streamId) in Answers(readings)
  {
    if i > 0 {
      AnswerIsAmong(readings[1..], i - 1);
    }
  }

  /** What the agents sent on the attempts' connections, and that no timeout struck inside a frame. */
  ghost predicate CleanlyRead(attempts: seq<Attempt>, sent: seq<seq<Frame>>, cut: seq<seq<byte>>) {
    && |sent| == |attempts| == |cut|
    && forall k :: 0 <= k < |attempts| ==>
         && AllSendable(sent[k]) && ParseFrame(cut[k]).None?
         && ReadOff(Wire(sent[k]) + cut[k], attempts[k].readings) && Clean(attempts[k].readings)
  }

  /** The agent acknowledged the stream that this attempt gave the name. */
  ghost predicate AgentAcknowledged(names: seq<string>, attempts: seq<Attempt>, sent: seq<seq<Frame>>, k: nat, name: string)
    requires k < |attempts| == |sent|
  {
    var pending := Pending(names, attempts[..k]);
    exists i :: 0 <= i < |pending| && pending[i] == name && (ACK, i + 1) in Headers(sent[k])
  }

  /**
   However late, missing or reordered what the agent sends arrives, and however
   many attempts and connections fail: if no timeout strikes inside a frame, a
   name leaves the list only after the agent acknowledged that name's own
   stream on the connection that asked for it.
   */
  lemma {:induction false} NamesLeaveOnlyAcknowledged(
    names: seq<string>, attempts: seq<Attempt>, sent: seq<seq<Frame>>, cut: seq<seq<byte>>, name: string
  )
    requires CleanlyRead(attempts, sent, cut)
    requires name in names && name !in Pending(names, attempts)
    ensures exists k :: 0 <= k < |attempts| && AgentAcknowledged(names, attempts, sent, k, name)
  {
    MissingIsNeverAcknowledged(names, attempts, name);
    var k :| 0 <= k < |attempts| && Acknowledged(names, attempts, k, name);
    var pending := Pending(names, attempts[..k]);
    var i :| 0 <= i < |pending| && pending[i] == name && AckedInTurn(attempts[k], i);
    AnswersAreWhatWasSent(sent[k], cut[k], attempts[k].readings);
    AnswerIsAmong(attempts[k].readings, i + 1);
    assert (ACK, i + 1) in Headers(sent[k]);
    assert AgentAcknowledged(names, attempts, sent, k, name);
  }

  /**
   A timeout inside a frame: the agent acknowledged stream 1 alone, with an ACK
   whose payload reads as another. The read for stream 1 gives up after 11 of
   its bytes, the next read starts there, and the second name counts as served.
   */
  lemma TimeoutInAFrameServesTheWrongName(a: string, b: string)
    requires a != b
    ensures
      var hello, inner := Frame(AGENT_HELLO, 0, 0, []), Frame(ACK, 2, 1, []);
      && Sendable(inner) && Sendable(hello) && Sendable(Frame(ACK, 1, 1, FrameBytes(inner)))
      && var sent := [hello, Frame(ACK, 1, 1, FrameBytes(inner))];
         var readings := [
           Reading(Answer(AGENT_HELLO, 0), |FrameBytes(hello)|), Reading(Late, 11), Reading(Answer(ACK, 2), 11)];
         && ReadOff(Wire(sent), readings) && (ACK, 2) !in Headers(sent)
         && OutcomeOf([a, b], Attempt(true, readings)) == Served({b})
  {
    var hello, inner := Frame(AGENT_HELLO, 0, 0, []), Frame(ACK, 2, 1, []);
    SmallFrames();
    var outer := Frame(ACK, 1, 1, FrameBytes(inner));
    InnerStartsAt11(inner);
    var readings := [
      Reading(Answer(AGENT_HELLO, 0), |FrameBytes(hello)|), Reading(Late, 11), Reading(Answer(ACK, 2), 11)];
    var wire := Wire([hello, outer]);
    WireOfTwo(hello, outer);
    hide FrameBytes, Sendable;
    ReadBackOne(hello, FrameBytes(outer));
    assert wire[|FrameBytes(hello)|..] == FrameBytes(outer);
    assert FrameBytes(inner) + [] == FrameBytes(inner);
    ReadBackOne(inner, []);
    hide ParseFrame;
    ReadOffThree(wire, readings);
    OnlyTheSecond(a, b, readings);
  }

  lemma WireOfTwo(a: Frame, b: Frame)
    requires Sendable(a) && Sendable(b)
    ensures Wire([a, b]) == FrameBytes(a) + FrameBytes(b)
    ensures Headers([a, b]) == [(a.frameType, a.streamId), (b.frameType, b.streamId)]
  {
    var none: seq<Frame> := [];
    assert [a, b][1..] == [b] && [b][1..] == none;
    assert Wire(none) == [] && Headers(none) == [];
    assert Wire([b]) == FrameBytes(b);
    assert Headers([b]) == [(b.frameType, b.streamId)];
  }

  lemma InnerStartsAt11(inner: Frame)
    requires Sendable(inner) && |FrameBytes(inner)| == 11 && Sendable(Frame(ACK, 1, 1, FrameBytes(inner)))
    ensures var outer := FrameBytes(Frame(ACK, 1, 1, FrameBytes(inner)));
            |outer| == 22 && outer[11..] == FrameBytes(inner)
  {
    var outer := Frame(ACK, 1, 1, FrameBytes(inner));
    var head := BigEndian32(|Body(outer)|) + ([ACK] + BigEndian32(FLAG_FIN) + Encode(1) + Encode(1));
    assert FrameBytes(outer) == head + FrameBytes(inner);
  }

  lemma SmallFrames()
    ensures
      var hello, inner := Frame(AGENT_HELLO, 0, 0, []), Frame(ACK, 2, 1, []);
      && Sendable(hello) && Sendable(inner) && |FrameBytes(inner)| == 11
      && Sendable(Frame(ACK, 1, 1, FrameBytes(inner)))
  {
  }

  lemma ReadOffThree(stream: seq<byte>, readings: seq<Reading>)
    requires |readings| == 3 && readings[0].used + readings[1].used <= |stream|
    requires Fits(stream, readings[0]) && Fits(stream[readings[0].used..], readings[1])
    requires Fits(stream[readings[0].used..][readings[1].used..], readings[2])
    ensures ReadOff(stream, readings)
  {
    assert readings[1..][0] == readings[1] && readings[1..][1..][0] == readings[2] && readings[1..][1..][1..] == [];
    assert ReadOff(stream[readings[0].used..][readings[1].used..], readings[1..][1..]);
    assert ReadOff(stream[readings[0].used..], readings[1..]);
  }

  lemma OnlyTheSecond(a: string, b: string, readings: seq<Reading>)
    requires a != b && |readings| == 3
    requires readings[0].reply == Answer(AGENT_HELLO, 0) && readings[1].reply == Late && readings[2].reply == Answer(ACK, 2)
    ensures OutcomeOf([a, b], Attempt(true, readings)) == Served({b})
  {
    var attempt := Attempt(true, readings);
    assert Completes(attempt, 2);
    assert AckedInTurn(attempt, 1) && !AckedInTurn(attempt, 0);
    assert AckedNames([a, b], attempt, 2) == {b};
  }

  /** By their numbers on the wire: a hello (101) and the name's own ACK (103) serve it, a disconnect (102) fails the attempt. */
  lemma HelloAndAckServe(a: string)
    ensures OutcomeOf([a], Attempt(true, [Reading(Answer(101, 0), 0), Reading(Answer(103, 1), 0)])) == Served({a})
    ensures OutcomeOf([a], Attempt(true, [Reading(Answer(101, 0), 0), Reading(Answer(103, 2), 0)])) == Served({})
    ensures OutcomeOf([a], Attempt(true, [Reading(Answer(101, 0), 0), Reading(Answer(102, 1), 0)])) == Failed
    ensures OutcomeOf([a], Attempt(true, [Reading(Answer(103, 0), 0), Reading(Answer(103, 1), 0)])) == Failed
  {
    var own := Attempt(true, [Reading(Answer(101, 0), 0), Reading(Answer(103, 1), 0)]);
    var other := Attempt(true, [Reading(Answer(101, 0), 0), Reading(Answer(103, 2), 0)]);
    assert Completes(own, 1) && AckedInTurn(own, 0);
    assert Completes(other, 1) && !AckedInTurn(other, 0);
    StopsHere([a], Attempt(true, [Reading(Answer(101, 0), 0), Reading(Answer(102, 1), 0)]), 1);
    StopsHere([a], Attempt(true, [Reading(Answer(103, 0), 0), Reading(Answer(103, 1), 0)]), 0);
  }

  /** An acknowledgement does not count when the attempt fails afterwards. */
  lemma AckLostWithItsConnection(a: string, b: string)
    ensures
      var attempt := Attempt(true, [Reading(Answer(AGENT_HELLO, 0), 0), Reading(Answer(ACK, 1), 0), Reading(Broken, 0)]);
      AckedInTurn(attempt, 0) && a in Pending([a, b], [attempt])
  {
    var attempt := Attempt(true, [Reading(Answer(AGENT_HELLO, 0), 0), Reading(Answer(ACK, 1), 0), Reading(Broken, 0)]);
    assert !GoesOn(attempt, 2);
    assert [attempt][..0] == [];
    assert Pending([a, b], []) == [a, b];
    WithoutMembers([a, b], {});
  }

  /** The read after message i yields nothing, or a frame of an earlier message. */
  predicate LateOrEarlier(attempt: Attempt, i: nat) {
    ReplyTo(attempt, i + 1) == Late || (ReplyTo(attempt, i + 1).Answer? && ReplyTo(attempt, i + 1).streamId <= i)
  }

  /** ACKs that always arrive one read late serve nobody: each carries an earlier stream. */
  lemma LateAcksServeNobody(pending: seq<string>, attempt: Attempt)
    requires forall i :: 0 <= i < |pending| ==> LateOrEarlier(attempt, i)
    ensures ServedBy(pending, attempt) == {}
  {
    forall i | 0 <= i < |pending| ensures !AckedInTurn(attempt, i) {
      assert LateOrEarlier(attempt, i);
    }
  }
}
