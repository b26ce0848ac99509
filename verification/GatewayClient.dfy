/**
 * The Python client: one reader thread routes every message of the kernel's websocket to the queue of
 * the request it answers, and each caller of `execute` drains its own queue.
 */
module GatewayClient {
  import opened Collections

  type Id = string

  /** What `execute` reads of a message's content; a key that is not there is `None`. */
  datatype Content = Content(
    status: Option<string>,
    ename: Option<string>,
    evalue: Option<string>,
    traceback: Option<string>,
    text: Option<string>,
    data: Option<map<string, string>>,
    executionState: Option<string>)

  datatype Message = Message(msgType: string, content: Content)

  /**
   * One decoded websocket frame. `parent` is the message id of its parent header: `None` without such a
   * header, `Some(None)` for a header without an id.
   */
  datatype Frame =
    | DeadFrame
    | Frame(parent: Option<Option<Id>>, msgId: Option<Id>, msgType: Option<string>, content: Content)

  const DEAD_MSG_ID := "deadbeefdeadbeefdeadbeefdeadbeef"

  /** The id a frame is filed under, or `None` where looking for it raises. */
  function GetMsgId(f: Frame): Option<Id> {
    match f
    case DeadFrame => Some(DEAD_MSG_ID)
    case Frame(None, _, _, _) => None
    case Frame(Some(parent), msgId, _, _) =>
      if parent.Some? && parent.value != "" then parent
      else if msgId.Some? then msgId
      else Some(DEAD_MSG_ID)
  }

  /** A frame that the reader can file: it has a parent header and a message type. */
  predicate WellFormed(f: Frame) {
    f.Frame? && f.parent.Some? && f.msgType.Some?
  }

  /** `reading` is false once the reader thread has ended. */
  datatype State = State(queues: map<Id, seq<Message>>, reading: bool, restarting: bool)

  const INITIAL := State(map[], true, false)

  /** `ReceiveFails` is a receive that times out or finds the socket closed, or a text that is not JSON. */
  datatype Event =
    | Receive(frame: Frame)
    | ReceiveFails
    | Send(id: Id)
    | Get(id: Id)
    | SetRestarting(restarting: bool)

  /** An empty queue for `id`, if it has none yet. */
  function Ensured(queues: map<Id, seq<Message>>, id: Id): map<Id, seq<Message>> {
    if id in queues then queues else queues[id := []]
  }

  /** A frame that cannot be filed ends the reader, unless a restart is going on. */
  function Filed(s: State, f: Frame): State {
    if !s.reading then s
    else
      match GetMsgId(f)
      case None => s.(reading := s.restarting)
      case Some(id) =>
        var queues := Ensured(s.queues, id);
        if WellFormed(f)
        then s.(queues := queues[id := queues[id] + [Message(f.msgType.value, f.content)]])
        else s.(queues := queues, reading := s.restarting)
  }

  function Popped(s: State, id: Id): State {
    if id in s.queues && s.queues[id] != [] then s.(queues := s.queues[id := s.queues[id][1..]]) else s
  }

  function Next(s: State, e: Event): State {
    match e
    case Receive(f) => Filed(s, f)
    case ReceiveFails => s.(reading := s.reading && s.restarting)
    case Send(id) => s.(queues := s.queues[id := []])
    case Get(id) => Popped(s, id)
    case SetRestarting(restarting) => s.(restarting := restarting)
  }

  function After(s: State, events: seq<Event>): State {
    if events == [] then s
    else Next(After(s, events[..|events| - 1]), events[|events| - 1])
  }

  function Queue(s: State, id: Id): seq<Message> {
    if id in s.queues then s.queues[id] else []
  }

  // ----- What one event files under an id, and takes from it -----

  function MessageOf(f: Frame): Message
    requires f.Frame? && f.msgType.Some?
  {
    Message(f.msgType.value, f.content)
  }

  /** The frame's parent header names no request. */
  predicate Unparented(f: Frame) {
    f.Frame? && (f.parent == Some(None) || f.parent == Some(Some("")))
  }

  /** The frame is for `id`: its parent is, or it has none and its own id is, or it has neither. */
  predicate Addressed(f: Frame, id: Id) {
    || (f.Frame? && id != "" && f.parent == Some(Some(id)))
    || (Unparented(f) && f.msgId == Some(id))
    || (Unparented(f) && f.msgId.None? && id == DEAD_MSG_ID)
  }

  /** A frame that can be filed goes to the end of exactly the queue it is addressed to. */
  lemma FrameIsFiled(s: State, f: Frame, id: Id)
    requires s.reading && WellFormed(f) && Addressed(f, id)
    ensures var s' := Next(s, Receive(f));
      && s'.reading && s'.restarting == s.restarting && id in s'.queues
      && s'.queues[id] == Queue(s, id) + [MessageOf(f)]
      && s'.queues - {id} == s.queues - {id}
      && forall other :: Addressed(f, other) ==> other == id
  {
  }

  /** Every other frame leaves the queue as it was, as does every frame once the reader has ended. */
  lemma OtherQueuesStay(s: State, f: Frame, id: Id)
    requires !(s.reading && WellFormed(f) && Addressed(f, id))
    ensures Queue(Next(s, Receive(f)), id) == Queue(s, id)
  {
    if WellFormed(f) {
      FiledWhereAddressed(f);
    }
  }

  lemma FiledWhereAddressed(f: Frame)
    requires WellFormed(f)
    ensures GetMsgId(f).Some? && Addressed(f, GetMsgId(f).value)
  {
    var parent := f.parent.value;
    assert parent.Some? && parent.value == "" ==> f.parent == Some(Some(""));
  }

  /** A reply is filed under its parent's id; without one under its own, without either under the dead id. */
  lemma ReplyIsFiledUnderParent(s: State, f: Frame, p: Id)
    requires s.reading && f.Frame? && f.msgType.Some?
    ensures f.parent == Some(Some(p)) && p != "" ==>
              Next(s, Receive(f)).queues == s.queues[p := Queue(s, p) + [MessageOf(f)]]
    ensures f.parent in {Some(None), Some(Some(""))} && f.msgId == Some(p) ==>
              Next(s, Receive(f)).queues == s.queues[p := Queue(s, p) + [MessageOf(f)]]
    ensures f.parent in {Some(None), Some(Some(""))} && f.msgId == None ==>
              var dead := "deadbeefdeadbeefdeadbeefdeadbeef";
              Next(s, Receive(f)).queues == s.queues[dead := Queue(s, dead) + [MessageOf(f)]]
  {
  }

  function FiledUnder(s: State, e: Event, id: Id): seq<Message> {
    if e.Receive? && s.reading && WellFormed(e.frame) && Addressed(e.frame, id) then [MessageOf(e.frame)] else []
  }

  function TakenFrom(s: State, e: Event, id: Id): seq<Message> {
    if e == Get(id) && Queue(s, id) != [] then [Queue(s, id)[0]] else []
  }

  /** The messages filed under `id` since it was last sent, in order of arrival. */
  function FiledSince(events: seq<Event>, id: Id): seq<Message> {
    if events == [] then []
    else
      var (before, e) := (events[..|events| - 1], events[|events| - 1]);
      if e == Send(id) then [] else FiledSince(before, id) + FiledUnder(After(INITIAL, before), e, id)
  }

  /** The messages that callers took from `id`'s queue since it was last sent. */
  function TakenSince(events: seq<Event>, id: Id): seq<Message> {
    if events == [] then []
    else
      var (before, e) := (events[..|events| - 1], events[|events| - 1]);
      if e == Send(id) then [] else TakenSince(before, id) + TakenFrom(After(INITIAL, before), e, id)
  }

  lemma OneEvent(s: State, e: Event, id: Id)
    requires e != Send(id)
    ensures TakenFrom(s, e, id) + Queue(Next(s, e), id) == Queue(s, id) + FiledUnder(s, e, id)
  {
    var q := Queue(s, id);
    if e == Get(id) && q != [] {
      assert [q[0]] + q[1..] == q;
    } else if e.Receive? && s.reading && WellFormed(e.frame) && Addressed(e.frame, id) {
      FrameIsFiled(s, e.frame, id);
    } else if e.Receive? {
      OtherQueuesStay(s, e.frame, id);
    }
    assert [] + Queue(Next(s, e), id) == Queue(Next(s, e), id) && q + [] == q;
  }

  /**
   * In every interleaving of the reader thread and any number of callers, for every id: the messages
   * taken since its request was sent, followed by those still queued, are the messages filed under it
   * since then, in order. Nothing is lost, duplicated, reordered or handed to another request.
   */
  lemma {:induction false} NothingIsLost(events: seq<Event>, id: Id)
    ensures TakenSince(events, id) + Queue(After(INITIAL, events), id) == FiledSince(events, id)
  {
    if events == [] {
    } else {
      var before, e := events[..|events| - 1], events[|events| - 1];
      NothingIsLost(before, id);
      if e != Send(id) {
        var s := After(INITIAL, before);
        OneEvent(s, e, id);
        ConcatAssociative(TakenSince(before, id), TakenFrom(s, e, id), Queue(Next(s, e), id));
        ConcatAssociative(TakenSince(before, id), Queue(s, id), FiledUnder(s, e, id));
      }
    }
  }

  /** No frame without a parent bears the request's id as its own; ids of requests are fresh. */
  predicate NoImpostor(events: seq<Event>, id: Id) {
    forall i :: 0 <= i < |events| ==> !(events[i].Receive? && Bears(events[i].frame, id))
  }

  predicate Bears(f: Frame, id: Id) {
    Unparented(f) && f.msgId == Some(id)
  }

  /** The messages, in order, whose parent is `id` and that a living reader received since `id` was sent. */
  function RepliesSince(events: seq<Event>, id: Id): seq<Message> {
    if events == [] then []
    else
      var (before, e) := (events[..|events| - 1], events[|events| - 1]);
      if e == Send(id) then []
      else
        RepliesSince(before, id)
        + if e.Receive? && After(INITIAL, before).reading && WellFormed(e.frame) && e.frame.parent == Some(Some(id))
          then [MessageOf(e.frame)]
          else []
  }

  /** What a request's queue has held since it was sent are exactly the replies to it, in order. */
  lemma {:induction false} RepliesAreFiled(events: seq<Event>, id: Id)
    requires id != "" && id != DEAD_MSG_ID && NoImpostor(events, id)
    ensures TakenSince(events, id) + Queue(After(INITIAL, events), id) == RepliesSince(events, id)
  {
    NothingIsLost(events, id);
    FiledAreReplies(events, id);
  }

  lemma {:induction false} FiledAreReplies(events: seq<Event>, id: Id)
    requires id != "" && id != DEAD_MSG_ID && NoImpostor(events, id)
    ensures FiledSince(events, id) == RepliesSince(events, id)
  {
    if events == [] {
    } else {
      FiledAreReplies(events[..|events| - 1], id);
      assert !(events[|events| - 1].Receive? && Bears(events[|events| - 1].frame, id));
    }
  }

  /** What decides whether the reader still files: its life, and whether a restart is going on. */
  datatype Reader = Reader(alive: bool, restarting: bool)

  function ReaderOf(s: State): Reader {
    Reader(s.reading, s.restarting)
  }

  /** A frame that cannot be filed, or a failing receive, ends the reader, unless a restart is going on. */
  function ReaderNext(r: Reader, e: Event): Reader {
    match e
    case Receive(f) => if WellFormed(f) then r else r.(alive := r.alive && r.restarting)
    case ReceiveFails => r.(alive := r.alive && r.restarting)
    case SetRestarting(restarting) => r.(restarting := restarting)
    case _ => r
  }

  function ReaderAfter(r: Reader, events: seq<Event>): Reader {
    if events == [] then r
    else ReaderNext(ReaderAfter(r, events[..|events| - 1]), events[|events| - 1])
  }

  /** The reader's fate depends on the frames and the restarts alone, not on the queues. */
  lemma {:induction false} ReaderFollows(s: State, events: seq<Event>)
    ensures ReaderOf(After(s, events)) == ReaderAfter(ReaderOf(s), events)
  {
    if events == [] {
    } else {
      ReaderFollows(s, events[..|events| - 1]);
    }
  }

  /**
   * A receive that fails, or a frame without parent header or message type, while no restart is going on.
   */
  predicate Fatal(events: seq<Event>, i: nat)
    requires i < |events|
  {
    && (events[i].ReceiveFails? || (events[i].Receive? && !WellFormed(events[i].frame)))
    && !After(INITIAL, events[..i]).restarting
  }

  /** The reader is alive after a run if and only if every failure and malformed frame fell into a restart. */
  lemma {:induction false} ReaderAliveIff(events: seq<Event>)
    ensures After(INITIAL, events).reading <==> forall i :: 0 <= i < |events| ==> !Fatal(events, i)
  {
    if events == [] {
    } else {
      var n := |events| - 1;
      var before := events[..n];
      ReaderAliveIff(before);
      assert forall i :: 0 <= i < n ==> events[..i] == before[..i] && events[i] == before[i];
      if After(INITIAL, events).reading {
        forall i | 0 <= i < |events|
          ensures !Fatal(events, i)
        {
          assert i < n ==> !Fatal(before, i);
        }
      } else if After(INITIAL, before).reading {
        assert Fatal(events, n);
      } else {
        var i :| 0 <= i < n && Fatal(before, i);
        assert Fatal(events, i);
      }
    }
  }

  /** A restart is going on if and only if the client last said so. */
  lemma {:induction false} RestartingAsSet(before: seq<Event>, restarting: bool, after: seq<Event>)
    requires forall i :: 0 <= i < |after| ==> !after[i].SetRestarting?
    ensures After(INITIAL, before + [SetRestarting(restarting)] + after).restarting == restarting
  {
    var events := before + [SetRestarting(restarting)] + after;
    if after == [] {
      assert events[..|events| - 1] == before;
    } else {
      var shorter := after[..|after| - 1];
      RestartingAsSet(before, restarting, shorter);
      assert events[..|events| - 1] == before + [SetRestarting(restarting)] + shorter;
      assert events[|events| - 1] == after[|after| - 1];
    }
  }

  /** Once the reader has ended nothing is filed under any id any more. */
  lemma MalformedFrameSilencesReader(
      before: seq<Event>, bad: Frame, more: seq<Event>, next: Event, id: Id)
    requires !After(INITIAL, before).restarting && !WellFormed(bad)
    ensures var s := After(INITIAL, before + [Receive(bad)] + more);
      !s.reading && FiledUnder(s, next, id) == []
  {
    var events := before + [Receive(bad)] + more;
    assert events[..|before|] == before && events[|before|] == Receive(bad);
    assert Fatal(events, |before|);
    ReaderAliveIff(events);
  }

  // ----- Rendering -----

  predicate HasUnicodeMark(s: string) {
    exists i :: 0 <= i < |s| - 1 && s[i] == 'u' && s[i + 1] == '\''
  }

  /** Python's `s.replace("u'", "")`. */
  function WithoutUnicodeMarks(s: string): (r: string)
    ensures |r| <= |s|
  {
    if |s| < 2 then s
    else if s[0] == 'u' && s[1] == '\'' then WithoutUnicodeMarks(s[2..])
    else [s[0]] + WithoutUnicodeMarks(s[1..])
  }

  function ConvertRawResponse(raw: string): string {
    if HasUnicodeMark(raw) then
      var r := WithoutUnicodeMarks(raw);
      if r == "" then "" else r[..|r| - 1]
    else raw
  }

  lemma {:induction false} MarksAreRemoved(s: string)
    ensures HasUnicodeMark(s) ==> |WithoutUnicodeMarks(s)| + 2 <= |s|
    ensures !HasUnicodeMark(s) ==> WithoutUnicodeMarks(s) == s
  {
    if |s| < 2 {
    } else if s[0] == 'u' && s[1] == '\'' {
    } else {
      MarksAreRemoved(s[1..]);
      if HasUnicodeMark(s) {
        var i :| 0 <= i < |s| - 1 && s[i] == 'u' && s[i + 1] == '\'';
        assert s[1..][i - 1] == 'u' && s[1..][i - 1 + 1] == '\'';
      } else {
        forall i | 0 <= i < |s| - 2
          ensures !(s[1..][i] == 'u' && s[1..][i + 1] == '\'')
        {
          assert !(s[i + 1] == 'u' && s[i + 2] == '\'');
        }
        assert [s[0]] + s[1..] == s;
      }
    }
  }

  /**
   * The conversion unquotes a Python 2 unicode literal exactly when its text neither contains the mark
   * nor ends in the letter `u`: `u'menu'` comes out as `me`.
   */
  lemma ConversionUnquotesIff(text: string)
    ensures ConvertRawResponse("u'" + text + "'") == text <==> !HasUnicodeMark(text + "'")
  {
    var raw := "u'" + text + "'";
    assert raw == "u'" + (text + "'");
    assert raw[0] == 'u' && raw[0 + 1] == '\'';
    assert raw[2..] == text + "'";
    MarksAreRemoved(text + "'");
    assert WithoutUnicodeMarks(raw) == WithoutUnicodeMarks(text + "'");
    assert (text + "'")[..|text|] == text;
  }

  /** What `execute` makes of one message. */
  datatype Reaction = Reaction(text: string, error: bool, raises: bool)

  const SILENT := Reaction("", false, false)

  function Shown(raw: Option<string>): Reaction {
    if raw.Some? then Reaction(ConvertRawResponse(raw.value), false, false) else SILENT.(raises := true)
  }

  function ShownData(data: Option<map<string, string>>): Reaction {
    match data
    case None => SILENT.(raises := true)
    case Some(d) =>
      if "text/plain" in d then Shown(Some(d["text/plain"]))
      else if "text/html" in d then Shown(Some(d["text/html"]))
      else SILENT
  }

  function ShownError(c: Content): Reaction {
    if c.ename.Some? && c.evalue.Some? && c.traceback.Some?
    then Reaction(c.ename.value + ":" + c.evalue.value + ":" + c.traceback.value, true, false)
    else Reaction("", true, true)
  }

  function React(m: Message): Reaction {
    var c := m.content;
    if m.msgType == "error" then ShownError(c)
    else if m.msgType == "execute_reply" && c.status.None? then SILENT.(raises := true)
    else if m.msgType == "execute_reply" && c.status == Some("error") then ShownError(c)
    else if m.msgType == "stream" then Shown(c.text)
    else if m.msgType == "execute_result" || m.msgType == "display_data" then ShownData(c.data)
    else if m.msgType == "status" && c.executionState.None? then SILENT.(raises := true)
    else SILENT
  }

  /** A conversation rendered in order, up to the first message that raises. */
  function Rendered(ms: seq<Message>): (string, bool) {
    if ms == [] then ("", false)
    else
      var r := React(ms[0]);
      if r.raises then (r.text, r.error)
      else
        var (text, error) := Rendered(ms[1..]);
        (r.text + text, r.error || error)
  }

  lemma UnmarkedTail(s: string)
    requires |s| > 1 && !HasUnicodeMark(s)
    ensures !HasUnicodeMark(s[1..]) && !(s[0] == 'u' && s[1] == '\'')
  {
    forall i | 0 <= i < |s| - 2
      ensures !(s[1..][i] == 'u' && s[1..][i + 1] == '\'')
    {
      assert !(s[i + 1] == 'u' && s[i + 1 + 1] == '\'');
    }
    assert !(s[0] == 'u' && s[0 + 1] == '\'');
  }

  /** The marks go from left to right, and nothing else does: the first of them is at `n`. */
  lemma {:induction false} FirstMarkGoes(s: string, n: nat)
    requires n + 1 < |s| && s[n] == 'u' && s[n + 1] == '\''
    requires !HasUnicodeMark(s[..n + 1])
    ensures WithoutUnicodeMarks(s) == s[..n] + WithoutUnicodeMarks(s[n + 2..])
  {
    if n > 0 {
      var tail := s[1..];
      UnmarkedTail(s[..n + 1]);
      assert s[..n + 1][1..] == tail[..n];
      var rest := s[n + 2..];
      FirstMarkGoes(tail, n - 1);
      assert tail[n - 1 + 2..] == rest;
      assert s[..n] == [s[0]] + tail[..n - 1];
      ConcatAssociative([s[0]], tail[..n - 1], WithoutUnicodeMarks(rest));
    }
  }

  /** A text is passed on as it is if and only if it has no Python 2 mark in it. */
  lemma ConversionLeavesIff(raw: string)
    ensures ConvertRawResponse(raw) == raw <==> !HasUnicodeMark(raw)
  {
    MarksAreRemoved(raw);
  }

  predicate IsError(m: Message) {
    m.msgType == "error" || (m.msgType == "execute_reply" && m.content.status == Some("error"))
  }

  /** A message that lacks a key `execute` reads of it. */
  predicate Lacking(m: Message) {
    var c := m.content;
    || (IsError(m) && (c.ename.None? || c.evalue.None? || c.traceback.None?))
    || (m.msgType == "execute_reply" && c.status.None?)
    || (m.msgType == "stream" && c.text.None?)
    || (m.msgType in {"execute_result", "display_data"} && c.data.None?)
    || (m.msgType == "status" && c.executionState.None?)
  }

  /**
   * What each message contributes: a stream its text, a result its plain text or else its HTML, an error its
   * name, value and traceback; everything else nothing. It raises if and only if it lacks a key.
   */
  lemma WhatExecuteShows(m: Message)
    ensures var r, c := React(m), m.content;
      && r.raises == Lacking(m) && r.error == IsError(m)
      && (m.msgType == "stream" && c.text.Some? ==> r.text == ConvertRawResponse(c.text.value))
      && (m.msgType in {"execute_result", "display_data"} && c.data.Some? ==>
            var d := c.data.value;
            && ("text/plain" in d ==> r.text == ConvertRawResponse(d["text/plain"]))
            && ("text/plain" !in d && "text/html" in d ==> r.text == ConvertRawResponse(d["text/html"]))
            && (d.Keys !! {"text/plain", "text/html"} ==> r.text == ""))
      && (IsError(m) && !Lacking(m) ==>
            r.text == c.ename.value + ":" + c.evalue.value + ":" + c.traceback.value)
      && (m.msgType !in {"stream", "execute_result", "display_data"} && !IsError(m) ==> r.text == "")
  {
    assert "text/plain" in {"text/plain", "text/html"} && "text/html" in {"text/plain", "text/html"};
  }

  /** `execute` reports an error if and only if one came before any message that lacks a key. */
  lemma {:induction false} ErrorIff(ms: seq<Message>)
    ensures Rendered(ms).1 <==>
            exists i :: 0 <= i < |ms| && IsError(ms[i]) && forall j :: 0 <= j < i ==> !Lacking(ms[j])
  {
    if ms == [] {
    } else {
      var rest := ms[1..];
      WhatExecuteShows(ms[0]);
      ErrorIff(rest);
      assert forall j :: 0 <= j < |rest| ==> rest[j] == ms[j + 1];
      if i :| 0 <= i < |rest| && IsError(rest[i]) && (forall j :: 0 <= j < i ==> !Lacking(rest[j])) {
        if !Lacking(ms[0]) {
          assert IsError(ms[i + 1]) && forall j :: 0 <= j < i + 1 ==> !Lacking(ms[j]);
        }
      }
      if i :| 0 < i < |ms| && IsError(ms[i]) && (forall j :: 0 <= j < i ==> !Lacking(ms[j])) {
        assert IsError(rest[i - 1]) && forall j :: 0 <= j < i - 1 ==> !Lacking(rest[j]);
      }
    }
  }

  // ----- One call of execute among other threads -----

  /**
   * `batches[k]` is what the reader and other callers do before the `k`th look into the queue succeeds or
   * times out; nothing happens after the last batch.
   */
  datatype Outcome = Outcome(text: string, error: bool, after: State)

  function Executed(s: State, id: Id, batches: seq<seq<Event>>): Outcome
    decreases |batches|, if batches == [] then |Queue(s, id)| else 0
  {
    var s1 := if batches == [] then s else After(s, batches[0]);
    if Queue(s1, id) == [] then Outcome("", false, s1)
    else
      var r := React(Queue(s1, id)[0]);
      if r.raises then Outcome(r.text, r.error, Popped(s1, id))
      else
        var rest := Executed(Popped(s1, id), id, if batches == [] then [] else batches[1..]);
        Outcome(r.text + rest.text, r.error || rest.error, rest.after)
  }

  /** Everyone else leaves `id`'s queue to its owner. */
  predicate Elsewhere(events: seq<Event>, id: Id) {
    forall i :: 0 <= i < |events| ==> events[i] != Get(id) && events[i] != Send(id)
  }

  /** The messages of a batch that answer request `id` and arrive while the reader is alive. */
  function Own(r: Reader, events: seq<Event>, id: Id): seq<Message> {
    if events == [] then []
    else
      var (before, e) := (events[..|events| - 1], events[|events| - 1]);
      Own(r, before, id)
      + if e.Receive? && ReaderAfter(r, before).alive && WellFormed(e.frame) && Addressed(e.frame, id)
        then [MessageOf(e.frame)]
        else []
  }

  function OwnBatches(r: Reader, batches: seq<seq<Event>>, id: Id): seq<seq<Message>>
    decreases |batches|
  {
    if batches == [] then []
    else [Own(r, batches[0], id)] + OwnBatches(ReaderAfter(r, batches[0]), batches[1..], id)
  }

  /** The messages taken one per look from a queue that each batch extends, up to the first empty look. */
  function Conversation(queue: seq<Message>, arrivals: seq<seq<Message>>): seq<Message>
    decreases |arrivals|, |queue|
  {
    var q := if arrivals == [] then queue else queue + arrivals[0];
    if q == [] then []
    else [q[0]] + Conversation(q[1..], if arrivals == [] then [] else arrivals[1..])
  }

  lemma {:induction false} BatchArrives(s: State, events: seq<Event>, id: Id)
    requires Elsewhere(events, id)
    ensures Queue(After(s, events), id) == Queue(s, id) + Own(ReaderOf(s), events, id)
  {
    if events == [] {
    } else {
      var before, e := events[..|events| - 1], events[|events| - 1];
      BatchArrives(s, before, id);
      ReaderFollows(s, before);
      assert e == events[|events| - 1] && e != Get(id) && e != Send(id);
      OneEvent(After(s, before), e, id);
      assert TakenFrom(After(s, before), e, id) == [];
      ConcatAssociative(Queue(s, id), Own(ReaderOf(s), before, id), FiledUnder(After(s, before), e, id));
    }
  }

  /**
   * Whatever the other requests receive meanwhile, and whatever frames arrive, `execute` returns the
   * in-order rendering of its own messages, as long as the reader lives and up to the first look that
   * finds none.
   */
  lemma {:induction false} ExecuteRendersItsOwn(s: State, id: Id, batches: seq<seq<Event>>)
    requires forall i :: 0 <= i < |batches| ==> Elsewhere(batches[i], id)
    ensures var o := Executed(s, id, batches);
      (o.text, o.error) == Rendered(Conversation(Queue(s, id), OwnBatches(ReaderOf(s), batches, id)))
    decreases |batches|, if batches == [] then |Queue(s, id)| else 0
  {
    var s1 := if batches == [] then s else After(s, batches[0]);
    if batches != [] {
      BatchArrives(s, batches[0], id);
      ReaderFollows(s, batches[0]);
    }
    var q := Queue(s1, id);
    if q != [] {
      var later := if batches == [] then [] else batches[1..];
      ExecuteRendersItsOwn(Popped(s1, id), id, later);
      LaterBatches(ReaderOf(s), batches, id);
      RenderedStep(q[0], Conversation(q[1..], OwnBatches(ReaderOf(s1), later, id)));
    }
  }

  /** The messages of a batch whose parent is `id`, received while the reader is alive. */
  function Replies(r: Reader, events: seq<Event>, id: Id): seq<Message> {
    if events == [] then []
    else
      var (before, e) := (events[..|events| - 1], events[|events| - 1]);
      Replies(r, before, id)
      + if e.Receive? && ReaderAfter(r, before).alive && WellFormed(e.frame) && e.frame.parent == Some(Some(id))
        then [MessageOf(e.frame)]
        else []
  }

  function ReplyBatches(r: Reader, batches: seq<seq<Event>>, id: Id): seq<seq<Message>>
    decreases |batches|
  {
    if batches == [] then []
    else [Replies(r, batches[0], id)] + ReplyBatches(ReaderAfter(r, batches[0]), batches[1..], id)
  }

  /** A request's `execute` returns the rendering of the replies to it, whatever else goes on. */
  lemma ExecuteRendersReplies(s: State, id: Id, batches: seq<seq<Event>>)
    requires id != "" && id != DEAD_MSG_ID
    requires forall i :: 0 <= i < |batches| ==> Elsewhere(batches[i], id) && NoImpostor(batches[i], id)
    ensures var o := Executed(Next(s, Send(id)), id, batches);
      (o.text, o.error) == Rendered(Conversation([], ReplyBatches(ReaderOf(s), batches, id)))
  {
    ExecuteRendersItsOwn(Next(s, Send(id)), id, batches);
    OwnAreReplies(ReaderOf(s), batches, id);
  }

  lemma {:induction false} OwnAreReplies(r: Reader, batches: seq<seq<Event>>, id: Id)
    requires id != "" && id != DEAD_MSG_ID
    requires forall i :: 0 <= i < |batches| ==> NoImpostor(batches[i], id)
    ensures OwnBatches(r, batches, id) == ReplyBatches(r, batches, id)
    decreases |batches|
  {
    if batches == [] {
    } else {
      BatchOwnAreReplies(r, batches[0], id);
      OwnAreReplies(ReaderAfter(r, batches[0]), batches[1..], id);
    }
  }

  lemma {:induction false} BatchOwnAreReplies(r: Reader, events: seq<Event>, id: Id)
    requires id != "" && id != DEAD_MSG_ID && NoImpostor(events, id)
    ensures Own(r, events, id) == Replies(r, events, id)
  {
    if events == [] {
    } else {
      BatchOwnAreReplies(r, events[..|events| - 1], id);
      assert !(events[|events| - 1].Receive? && Bears(events[|events| - 1].frame, id));
    }
  }

  lemma LaterBatches(r: Reader, batches: seq<seq<Event>>, id: Id)
    ensures batches != [] ==> OwnBatches(r, batches, id)[0] == Own(r, batches[0], id)
    ensures batches != [] ==>
              OwnBatches(r, batches, id)[1..] == OwnBatches(ReaderAfter(r, batches[0]), batches[1..], id)
  {
    if batches != [] {
      var later := OwnBatches(ReaderAfter(r, batches[0]), batches[1..], id);
      assert ([Own(r, batches[0], id)] + later)[1..] == later;
    }
  }

  lemma RenderedStep(m: Message, rest: seq<Message>)
    ensures var r := React(m);
      Rendered([m] + rest) ==
      if r.raises then (r.text, r.error) else (r.text + Rendered(rest).0, r.error || Rendered(rest).1)
  {
    assert ([m] + rest)[1..] == rest;
  }

  function Flatten(arrivals: seq<seq<Message>>): seq<Message> {
    if arrivals == [] then [] else arrivals[0] + Flatten(arrivals[1..])
  }

  /** Look `k` comes in time: more than `k` messages have arrived by then. */
  predicate InTime(queue: seq<Message>, arrivals: seq<seq<Message>>, k: nat) {
    |queue| + |Flatten(if k < |arrivals| then arrivals[..k + 1] else arrivals)| > k
  }

  lemma FlattenFirst(arrivals: seq<seq<Message>>, k: nat)
    requires arrivals != []
    ensures Flatten(if k + 1 < |arrivals| then arrivals[..k + 2] else arrivals)
         == arrivals[0] + Flatten(if k < |arrivals[1..]| then arrivals[1..][..k + 1] else arrivals[1..])
  {
    if k + 1 < |arrivals| {
      assert arrivals[..k + 2][1..] == arrivals[1..][..k + 1];
    }
  }

  lemma InTimeShifts(queue: seq<Message>, arrivals: seq<seq<Message>>, k: nat)
    requires var q := if arrivals == [] then queue else queue + arrivals[0]; q != []
    ensures var q := if arrivals == [] then queue else queue + arrivals[0];
      InTime(queue, arrivals, k + 1) <==> InTime(q[1..], if arrivals == [] then [] else arrivals[1..], k)
  {
    if arrivals != [] {
      FlattenFirst(arrivals, k);
    }
  }

  lemma FirstInTime(queue: seq<Message>, arrivals: seq<seq<Message>>)
    ensures InTime(queue, arrivals, 0) <==> (if arrivals == [] then queue else queue + arrivals[0]) != []
  {
    if arrivals != [] {
      assert Flatten(arrivals[..1]) == arrivals[0] by {
        assert arrivals[..1][1..] == [];
      }
    }
  }

  /**
   * The conversation is always a prefix of the request's own messages, and it is all of them exactly when
   * each of them is there by the time it is looked for.
   */
  lemma {:induction false} ConversationIsCompleteIff(queue: seq<Message>, arrivals: seq<seq<Message>>)
    ensures Conversation(queue, arrivals) <= queue + Flatten(arrivals)
    ensures Conversation(queue, arrivals) == queue + Flatten(arrivals) <==>
            forall k: nat :: k < |queue + Flatten(arrivals)| ==> InTime(queue, arrivals, k)
    decreases |arrivals|, |queue|
  {
    var all := queue + Flatten(arrivals);
    var q := if arrivals == [] then queue else queue + arrivals[0];
    var later := if arrivals == [] then [] else arrivals[1..];
    assert all == q + Flatten(later) by {
      if arrivals != [] {
        ConcatAssociative(queue, arrivals[0], Flatten(later));
      }
    }
    FirstInTime(queue, arrivals);
    if q == [] {
    } else {
      ConversationIsCompleteIff(q[1..], later);
      var rest := q[1..] + Flatten(later);
      PutBack(q, Flatten(later));
      OneMore(q[0], Conversation(q[1..], later), rest);
      ShiftAll(queue, arrivals, |rest|);
    }
  }

  lemma PutBack(q: seq<Message>, more: seq<Message>)
    requires q != []
    ensures q + more == [q[0]] + (q[1..] + more)
  {
  }

  lemma OneMore(m: Message, a: seq<Message>, b: seq<Message>)
    ensures [m] + a <= [m] + b <==> a <= b
    ensures [m] + a == [m] + b <==> a == b
  {
    assert ([m] + a)[1..] == a && ([m] + b)[1..] == b;
    if [m] + a <= [m] + b {
      assert forall i :: 0 <= i < |a| ==> a[i] == ([m] + a)[i + 1] == ([m] + b)[i + 1];
    }
  }

  lemma ShiftAll(queue: seq<Message>, arrivals: seq<seq<Message>>, n: nat)
    requires var q := if arrivals == [] then queue else queue + arrivals[0]; q != []
    requires InTime(queue, arrivals, 0)
    ensures var q := if arrivals == [] then queue else queue + arrivals[0];
      var later := if arrivals == [] then [] else arrivals[1..];
      (forall k: nat :: k < n + 1 ==> InTime(queue, arrivals, k)) <==>
      (forall k: nat :: k < n ==> InTime(q[1..], later, k))
  {
    var q := if arrivals == [] then queue else queue + arrivals[0];
    var later := if arrivals == [] then [] else arrivals[1..];
    forall k: nat
      ensures InTime(queue, arrivals, k + 1) <==> InTime(q[1..], later, k)
    {
      InTimeShifts(queue, arrivals, k);
    }
    if forall k: nat :: k < n ==> InTime(q[1..], later, k) {
      forall k: nat | k < n + 1
        ensures InTime(queue, arrivals, k)
      {
        if k > 0 {
          assert InTime(q[1..], later, k - 1);
        }
      }
    } else {
      var k: nat :| k < n && !InTime(q[1..], later, k);
      assert !InTime(queue, arrivals, k + 1);
    }
  }

  // ----- The object -----

  class KernelClient {
    var responseQueues: map<Id, seq<Message>>
    var reading: bool
    var restarting: bool

    constructor ()
      ensures Current() == INITIAL
    {
      responseQueues := map[];
      reading := true;
      restarting := false;
    }

    function Current(): State
      reads this
    {
      State(responseQueues, reading, restarting)
    }

    method SendRequest(id: Id)
      modifies this`responseQueues
      ensures Current() == Next(old(Current()), Send(id))
    {
      responseQueues := responseQueues[id := []];
    }

    /** `None` for a timeout. */
    method GetResponse(id: Id) returns (response: Option<Message>)
      requires id in responseQueues
      modifies this`responseQueues
      ensures response == if old(responseQueues[id]) == [] then None else Some(old(responseQueues[id][0]))
      ensures Current() == Next(old(Current()), Get(id))
    {
      var q := responseQueues[id];
      if q == [] {
        return None;
      }
      responseQueues := responseQueues[id := q[1..]];
      return Some(q[0]);
    }

    /** One round of the reader's loop. */
    method ReadResponse(f: Frame)
      requires reading
      modifies this`responseQueues, this`reading
      ensures Current() == Next(old(Current()), Receive(f))
      ensures WellFormed(f) ==> reading
      ensures forall id :: WellFormed(f) && Addressed(f, id) ==>
                responseQueues == old(responseQueues)[id := Queue(old(Current()), id) + [MessageOf(f)]]
    {
      var msgId := GetMsgId(f);
      if msgId.None? {
        reading := restarting;
        return;
      }
      var id := msgId.value;
      if id !in responseQueues {
        responseQueues := responseQueues[id := []];
      }
      if !WellFormed(f) {
        reading := restarting;
        return;
      }
      var q := responseQueues[id];
      responseQueues := responseQueues[id := q + [Message(f.msgType.value, f.content)]];
    }

    /** One round of the reader's loop that raises before there is a frame. */
    method FailToReceive()
      modifies this`reading
      ensures Current() == Next(old(Current()), ReceiveFails)
    {
      if !restarting {
        reading := false;
      }
    }

    /** What other threads do while a caller waits. */
    method Meanwhile(events: seq<Event>)
      modifies this
      ensures Current() == After(old(Current()), events)
    {
      ghost var start := Current();
      for i := 0 to |events|
        invariant Current() == After(start, events[..i])
      {
        assert events[..i + 1][..i] == events[..i];
        match events[i] {
          case Receive(f) =>
            if reading {
              ReadResponse(f);
            }
          case ReceiveFails => FailToReceive();
          case Send(id) => SendRequest(id);
          case Get(id) =>
            if id in responseQueues {
              var _ := GetResponse(id);
            }
          case SetRestarting(r) => restarting := r;
        }
      }
      assert events[..|events|] == events;
    }

    /** Sends a request under a fresh id and collects its responses until one is waited for in vain. */
    method Execute(id: Id, batches: seq<seq<Event>>) returns (text: string, hasError: bool)
      modifies this
      ensures var outcome := Executed(Next(old(Current()), Send(id)), id, batches);
        text == outcome.text && hasError == outcome.error && Current() == outcome.after
    {
      SendRequest(id);
      ghost var expected := Executed(Current(), id, batches);
      text, hasError := "", false;
      var rest := batches;
      assert text + expected.text == expected.text;
      while true
        invariant expected.text == text + Executed(Current(), id, rest).text
        invariant expected.error == (hasError || Executed(Current(), id, rest).error)
        invariant expected.after == Executed(Current(), id, rest).after
        decreases |rest|, if rest == [] then |Queue(Current(), id)| else 0
      {
        ghost var before, start, was := text, Current(), rest;
        if rest != [] {
          Meanwhile(rest[0]);
          rest := rest[1..];
        }
        if id !in responseQueues || responseQueues[id] == [] {
          assert text + "" == text;
          break;
        }
        var response := GetResponse(id);
        var r := React(response.value);
        text := text + r.text;
        hasError := hasError || r.error;
        if r.raises {
          break;
        }
        ConcatAssociative(before, r.text, Executed(Current(), id, rest).text);
      }
    }
  }
}
