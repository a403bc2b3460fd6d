/**
  The Spark client's reception of one streamed answer. Each frame the websocket
  delivers carries a header code, a completion status and a piece of text; the client
  keeps the text it has collected and whether the answer is complete.
*/
module Stream {
  import opened Text

  /** One websocket message: `header.code`, `payload.choices.status` and the first choice's `content`. */
  datatype Frame = Frame(code: int, status: int, content: string)

  /** A chat message sent to Spark, `{"role": ..., "content": ...}`. */
  datatype Message = Message(role: string, content: string)

  /** The client's `(answer, answer_received)`. */
  datatype Reception = Reception(answer: string, received: bool)

  /** The state a call starts from: no text, not received. */
  const Start: Reception := Reception("", false)

  /** The status of the last frame of an answer. */
  const LastStatus: int := 2

  /** What the message handler does with one frame; a frame with a non-zero code changes nothing. */
  function Receive(s: Reception, f: Frame): Reception {
    if f.code != 0 then s
    else Reception(s.answer + f.content, s.received || f.status == LastStatus)
  }

  /** The handler closes the socket on an error frame and on the last frame of an answer. */
  predicate Closes(f: Frame) {
    f.code != 0 || f.status == LastStatus
  }

  /** The frames the handler sees: everything up to and including the first one that closes the socket. */
  function Delivered(fs: seq<Frame>): seq<Frame>
    decreases |fs|
  {
    if fs == [] then []
    else if Closes(fs[0]) then [fs[0]]
    else [fs[0]] + Delivered(fs[1..])
  }

  /**
    The frames the handler sees are a prefix of the stream in which only the last
    frame may close the socket, and the last one does close it unless the stream ran out.
  */
  lemma {:induction false} DeliveredPrefix(fs: seq<Frame>)
    ensures var d := Delivered(fs);
      && |d| <= |fs| && d == fs[..|d|]
      && (forall i :: 0 <= i < |d| - 1 ==> !Closes(d[i]))
      && (|d| < |fs| ==> |d| > 0 && Closes(d[|d| - 1]))
    decreases |fs|
  {
    if fs != [] && !Closes(fs[0]) {
      var rest := Delivered(fs[1..]);
      DeliveredPrefix(fs[1..]);
      var d := [fs[0]] + rest;
      assert Delivered(fs) == d;
      assert fs == [fs[0]] + fs[1..];
      assert d == fs[..|d|];
      forall i | 0 <= i < |d| - 1
        ensures !Closes(d[i])
      {
        if i > 0 {
          assert d[i] == rest[i - 1];
        }
      }
    }
  }

  /** Handling the frames one by one until the socket closes. */
  function Deliver(s: Reception, fs: seq<Frame>): Reception
    decreases |fs|
  {
    if fs == [] then s
    else if Closes(fs[0]) then Receive(s, fs[0])
    else Deliver(Receive(s, fs[0]), fs[1..])
  }

  /** The text of the frames with code 0, in order. */
  function OkText(fs: seq<Frame>): string
    decreases |fs|
  {
    if fs == [] then "" else (if fs[0].code == 0 then fs[0].content else "") + OkText(fs[1..])
  }

  /** Some frame with code 0 has the last status. */
  predicate Completes(fs: seq<Frame>) {
    exists i :: 0 <= i < |fs| && fs[i].code == 0 && fs[i].status == LastStatus
  }

  lemma OkTextCons(f: Frame, rest: seq<Frame>)
    ensures OkText([f] + rest) == (if f.code == 0 then f.content else "") + OkText(rest)
  {
    assert ([f] + rest)[1..] == rest;
  }

  lemma CompletesCons(f: Frame, rest: seq<Frame>)
    ensures Completes([f] + rest) <==> (f.code == 0 && f.status == LastStatus) || Completes(rest)
  {
    var d := [f] + rest;
    assert d[0] == f;
    if Completes(rest) {
      var i :| 0 <= i < |rest| && rest[i].code == 0 && rest[i].status == LastStatus;
      assert d[i + 1] == rest[i];
    }
    if Completes(d) {
      var i :| 0 <= i < |d| && d[i].code == 0 && d[i].status == LastStatus;
      if i > 0 {
        assert rest[i - 1] == d[i];
      }
    }
  }

  /** A stream whose first frame closes the socket is handled by that frame alone. */
  lemma DeliverFirstCloses(s: Reception, fs: seq<Frame>)
    requires fs != [] && Closes(fs[0])
    ensures Deliver(s, fs) == Reception(s.answer + OkText(Delivered(fs)), s.received || Completes(Delivered(fs)))
  {
    var f := fs[0];
    assert Delivered(fs) == [f] + [];
    OkTextCons(f, []);
    CompletesCons(f, []);
  }

  /** A first frame that does not close the socket adds its text and leaves the answer incomplete. */
  lemma DeliverFirstOpen(s: Reception, fs: seq<Frame>)
    requires fs != [] && !Closes(fs[0])
    requires var s' := Receive(s, fs[0]);
      Deliver(s', fs[1..])
      == Reception(s'.answer + OkText(Delivered(fs[1..])), s'.received || Completes(Delivered(fs[1..])))
    ensures Deliver(s, fs) == Reception(s.answer + OkText(Delivered(fs)), s.received || Completes(Delivered(fs)))
  {
    var f := fs[0];
    var rest := Delivered(fs[1..]);
    assert Receive(s, f) == Reception(s.answer + f.content, s.received);
    assert Delivered(fs) == [f] + rest;
    OkTextCons(f, rest);
    CompletesCons(f, rest);
    AppendAssociates(s.answer, f.content, OkText(rest));
  }

  lemma AppendAssociates(a: string, b: string, c: string)
    ensures (a + b) + c == a + (b + c)
  {
  }

  /**
    Handling a stream appends the text of the successful frames the handler sees and
    marks the answer received exactly when one of them carries the last status.
  */
  lemma {:induction false} DeliverCollects(s: Reception, fs: seq<Frame>)
    ensures Deliver(s, fs) == Reception(s.answer + OkText(Delivered(fs)), s.received || Completes(Delivered(fs)))
    decreases |fs|
  {
    if fs != [] {
      if Closes(fs[0]) {
        DeliverFirstCloses(s, fs);
      } else {
        DeliverCollects(Receive(s, fs[0]), fs[1..]);
        DeliverFirstOpen(s, fs);
      }
    }
  }

  /** Once the answer is received, further handling keeps it received. */
  lemma {:induction false} ReceivedStays(s: Reception, fs: seq<Frame>)
    requires s.received
    ensures Deliver(s, fs).received
    decreases |fs|
  {
    if fs != [] && !Closes(fs[0]) {
      ReceivedStays(Receive(s, fs[0]), fs[1..]);
    }
  }

  /** A stream that opens with an error frame yields no text and no answer. */
  lemma ErrorFirst(fs: seq<Frame>)
    requires fs != [] && fs[0].code != 0
    ensures Deliver(Start, fs) == Start
  {
  }

  /** Frames after the first closing one are never handled. */
  lemma {:induction false} AfterCloseIgnored(s: Reception, fs: seq<Frame>, more: seq<Frame>)
    requires fs != [] && Closes(fs[|fs| - 1])
    requires forall i :: 0 <= i < |fs| - 1 ==> !Closes(fs[i])
    ensures Deliver(s, fs + more) == Deliver(s, fs)
    decreases |fs|
  {
    if !Closes(fs[0]) {
      assert (fs + more)[1..] == fs[1..] + more;
      AfterCloseIgnored(Receive(s, fs[0]), fs[1..], more);
    }
  }

  /** The text `chat_completion` returns: the collected text, stripped, whether or not the answer completed. */
  function Reply(fs: seq<Frame>): string {
    Strip(Deliver(Start, fs).answer)
  }
}
