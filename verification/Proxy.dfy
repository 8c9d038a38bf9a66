/** The two forwarding loops. Which side is served first, how much arrives at once and how late the
    runtime looks is left open at every turn, so each contract speaks of every interleaving. What the
    two sides will send, and how much each will take before writing to it fails, is given. */
module Proxy {
  import opened Text
  import Utf8

  /** What the client sends; `Broken` is a frame that cannot be read. */
  datatype Message =
    | Binary(bytes: seq<byte>)
    | TextMessage(text: string)
    | Ping(payload: seq<byte>)
    | Pong(payload: seq<byte>)
    | RawFrame
    | Close
    | Broken

  /** What one turn of a loop handles. */
  datatype Event =
    | FromClient(message: Message)
    | ClientGone
    | FromUpstream(bytes: seq<byte>)
    | UpstreamEnded
    | UpstreamFailed

  /** How one turn of a loop ends, and how the loop does. */
  datatype Turn = GoOn | Finished | Failed

  /** A pair of connections: the size of the receive buffer; how many frames the client takes, and
      how many bytes or datagrams the upstream does, before writing fails; whether shutting a TCP
      upstream down works, and whether reading it ends in an error. */
  datatype Link = Link(
    isTcp: bool,
    room: nat,
    clientTakes: nat,
    upstreamTakes: nat,
    shutsDown: bool,
    readFails: bool)

  // ----- what messages carry ------------------------------------------------------------------

  /** The datagram or the run of bytes a websocket message stands for. */
  function PayloadOf(m: Message): seq<byte> {
    match m
    case Binary(bytes) => bytes
    case TextMessage(text) => Utf8.Encode(text)
    case _ => []
  }

  predicate IsData(m: Message) { m.Binary? || m.TextMessage? }

  /** One payload for each data message, in order. */
  function Payloads(ms: seq<Message>): seq<seq<byte>> {
    if ms == [] then []
    else
      var m := ms[|ms| - 1];
      Payloads(ms[..|ms| - 1]) + (if IsData(m) then [PayloadOf(m)] else [])
  }

  function Flatten(chunks: seq<seq<byte>>): seq<byte> {
    if chunks == [] then [] else Flatten(chunks[..|chunks| - 1]) + chunks[|chunks| - 1]
  }

  /** The payloads of the pings, and of the pongs, in order. */
  function Pings(ms: seq<Message>): seq<seq<byte>> {
    if ms == [] then []
    else
      var m := ms[|ms| - 1];
      Pings(ms[..|ms| - 1]) + (if m.Ping? then [m.payload] else [])
  }

  function Pongs(ms: seq<Message>): seq<seq<byte>> {
    if ms == [] then []
    else
      var m := ms[|ms| - 1];
      Pongs(ms[..|ms| - 1]) + (if m.Pong? then [m.payload] else [])
  }

  // ----- what a history of events asks for ----------------------------------------------------

  /** The messages among the events, and the pieces the upstream sent. */
  function Messages(events: seq<Event>): seq<Message> {
    if events == [] then []
    else
      var e := events[|events| - 1];
      Messages(events[..|events| - 1]) + (if e.FromClient? then [e.message] else [])
  }

  function Chunks(events: seq<Event>): seq<seq<byte>> {
    if events == [] then []
    else
      var e := events[|events| - 1];
      Chunks(events[..|events| - 1]) + (if e.FromUpstream? then [e.bytes] else [])
  }

  /** The first `n` elements. */
  function Taken<T>(s: seq<T>, n: nat): seq<T> {
    if |s| <= n then s else s[..n]
  }

  /** What an event sends to the upstream. */
  function Sent(e: Event): seq<byte> {
    if e.FromClient? then PayloadOf(e.message) else []
  }

  /** What it sends to the client; `room` is the size of the receive buffer. */
  function Reply(e: Event, room: nat): seq<Message> {
    match e
    case FromClient(Ping(payload)) => [Pong(payload)]
    case FromUpstream(bytes) => [Binary(Taken(bytes, room))]
    case UpstreamEnded => [Close]
    case _ => []
  }

  function Replies(events: seq<Event>, room: nat): seq<Message> {
    if events == [] then []
    else Replies(events[..|events| - 1], room) + Reply(events[|events| - 1], room)
  }

  /** How an event leaves the loop, when `fits` says whether both sides took everything. */
  function TurnOn(e: Event, fits: bool, shutsDown: bool): Turn {
    match e
    case FromClient(Close) => if shutsDown then Finished else Failed
    case ClientGone => if shutsDown then Finished else Failed
    case UpstreamEnded => Finished
    case FromClient(Broken) => Failed
    case UpstreamFailed => Failed
    case _ => if fits then GoOn else Failed
  }

  lemma Snoc(ms: seq<Message>, m: Message)
    ensures Payloads(ms + [m]) == Payloads(ms) + (if IsData(m) then [PayloadOf(m)] else [])
    ensures Pings(ms + [m]) == Pings(ms) + (if m.Ping? then [m.payload] else [])
    ensures Pongs(ms + [m]) == Pongs(ms) + (if m.Pong? then [m.payload] else [])
    ensures Flatten(Payloads(ms + [m])) == Flatten(Payloads(ms)) + PayloadOf(m)
  {
    assert (ms + [m])[..|ms|] == ms;
    var chunks := Payloads(ms + [m]);
    if IsData(m) {
      assert chunks[..|chunks| - 1] == Payloads(ms);
    } else {
      assert chunks == Payloads(ms);
    }
  }

  // ----- what was carried, read back -----------------------------------------------------------

  /** `pieces` are what the data messages carry, one for each in order: bytes as they are, and text as
      the UTF-8 decoder reads it back. */
  predicate CarriedBy(ms: seq<Message>, pieces: seq<seq<byte>>) {
    if ms == [] then pieces == []
    else
      var front, rest := ms[..|ms| - 1], pieces[..if pieces == [] then 0 else |pieces| - 1];
      match ms[|ms| - 1]
      case Binary(bytes) => pieces != [] && pieces[|pieces| - 1] == bytes && CarriedBy(front, rest)
      case TextMessage(text) =>
        pieces != [] && Utf8.Decode(pieces[|pieces| - 1]) == Some(text) && CarriedBy(front, rest)
      case _ => CarriedBy(front, pieces)
  }

  lemma {:induction false} PayloadsAreCarried(ms: seq<Message>)
    ensures CarriedBy(ms, Payloads(ms))
  {
    hide Utf8.Encode, Utf8.Decode;
    if ms != [] {
      var front, m := ms[..|ms| - 1], ms[|ms| - 1];
      PayloadsAreCarried(front);
      if IsData(m) {
        assert Payloads(ms)[..|Payloads(ms)| - 1] == Payloads(front);
        if m.TextMessage? {
          Utf8.DecodeEncode(m.text);
        }
      } else {
        assert Payloads(ms) == Payloads(front);
      }
    }
  }

  lemma TextReadsBack(m: Message)
    ensures m.TextMessage? ==> Utf8.Decode(PayloadOf(m)) == Some(m.text)
  {
    if m.TextMessage? {
      Utf8.DecodeEncode(m.text);
    }
  }

  /** All the text, in order. */
  function Texts(ms: seq<Message>): string {
    if ms == [] then ""
    else
      var m := ms[|ms| - 1];
      Texts(ms[..|ms| - 1]) + (if m.TextMessage? then m.text else "")
  }

  predicate NoBinary(ms: seq<Message>) { forall m :: m in ms ==> !m.Binary? }

  /** What a client writes as text, in however many messages, is read back as that text. */
  lemma {:induction false} TextsArrive(ms: seq<Message>)
    requires NoBinary(ms)
    ensures Flatten(Payloads(ms)) == Utf8.Encode(Texts(ms))
    ensures Utf8.Decode(Flatten(Payloads(ms))) == Some(Texts(ms))
  {
    hide Utf8.Decode;
    if ms != [] {
      var front, m := ms[..|ms| - 1], ms[|ms| - 1];
      assert m in ms && NoBinary(front) && front + [m] == ms;
      TextsArrive(front);
      Snoc(front, m);
      Utf8.EncodeConcat(Texts(front), if m.TextMessage? then m.text else "");
    }
    Utf8.DecodeEncode(Texts(ms));
  }

  // ----- the events of a session ---------------------------------------------------------------

  lemma SnocEvent(events: seq<Event>, e: Event, room: nat)
    ensures Messages(events + [e]) == Messages(events) + (if e.FromClient? then [e.message] else [])
    ensures Chunks(events + [e]) == Chunks(events) + (if e.FromUpstream? then [e.bytes] else [])
    ensures Flatten(Chunks(events + [e]))
            == Flatten(Chunks(events)) + (if e.FromUpstream? then e.bytes else [])
    ensures Replies(events + [e], room) == Replies(events, room) + Reply(e, room)
  {
    assert (events + [e])[..|events|] == events;
    var chunks := Chunks(events + [e]);
    if e.FromUpstream? {
      assert chunks[..|chunks| - 1] == Chunks(events);
    } else {
      assert chunks == Chunks(events);
    }
  }

  lemma SnocPayloads(events: seq<Event>, e: Event)
    ensures Payloads(Messages(events + [e])) == Payloads(Messages(events))
              + (if e.FromClient? && IsData(e.message) then [PayloadOf(e.message)] else [])
    ensures Flatten(Payloads(Messages(events + [e]))) == Flatten(Payloads(Messages(events)))
              + (if e.FromClient? then PayloadOf(e.message) else [])
  {
    hide Messages, Payloads, Flatten, PayloadOf;
    SnocEvent(events, e, 0);
    if e.FromClient? {
      Snoc(Messages(events), e.message);
    } else {
      assert Messages(events) + [] == Messages(events);
    }
  }

  // ----- conservation -------------------------------------------------------------------------

  /** What the client is sent carries the upstream's pieces and the answers to its pings, each once
      and in order, as long as no piece is larger than the receive buffer. */
  lemma {:induction false} RepliesConserve(events: seq<Event>, room: nat)
    requires forall c :: c in Chunks(events) ==> |c| <= room
    ensures Payloads(Replies(events, room)) == Chunks(events)
    ensures Pongs(Replies(events, room)) == Pings(Messages(events))
  {
    if events != [] {
      var before, e := events[..|events| - 1], events[|events| - 1];
      assert before + [e] == events;
      SnocEvent(before, e, room);
      RepliesConserve(before, room);
      ReplyConserves(before, e, room);
    }
  }

  lemma ReplyConserves(before: seq<Event>, e: Event, room: nat)
    requires Payloads(Replies(before, room)) == Chunks(before)
    requires Pongs(Replies(before, room)) == Pings(Messages(before))
    requires e.FromUpstream? ==> |e.bytes| <= room
    ensures Payloads(Replies(before + [e], room)) == Chunks(before + [e])
    ensures Pongs(Replies(before + [e], room)) == Pings(Messages(before + [e]))
  {
    hide Messages, Chunks, Replies, Payloads, Pings, Pongs, Flatten;
    SnocEvent(before, e, room);
    var replies := Replies(before, room);
    if Reply(e, room) == [] {
      assert replies + [] == replies;
    } else {
      Snoc(replies, Reply(e, room)[0]);
    }
    if e.FromClient? {
      Snoc(Messages(before), e.message);
    } else {
      assert Messages(before) + [] == Messages(before);
    }
  }

  /** What is taken of a list of messages carries a prefix of what all of them carry. */
  lemma {:induction false} TakenCarriesPrefix(ms: seq<Message>, n: nat)
    ensures Payloads(Taken(ms, n)) <= Payloads(ms) && Pongs(Taken(ms, n)) <= Pongs(ms)
    decreases |ms|
  {
    if |ms| > n {
      var before, m := ms[..|ms| - 1], ms[|ms| - 1];
      assert before + [m] == ms && Taken(before, n) == Taken(ms, n);
      TakenCarriesPrefix(before, n);
      Snoc(before, m);
    }
  }

  /** `got` is everything the client was to be sent, but for a close frame at the end. */
  predicate SentBut(events: seq<Event>, room: nat, got: seq<Message>) {
    got == Replies(events, room) || got + [Close] == Replies(events, room)
  }

  lemma SentButConserves(events: seq<Event>, room: nat, got: seq<Message>)
    requires SentBut(events, room, got) && forall c :: c in Chunks(events) ==> |c| <= room
    ensures Payloads(got) == Chunks(events) && Pongs(got) == Pings(Messages(events))
  {
    RepliesConserve(events, room);
    Snoc(got, Close);
  }

  // ----- how a loop ends ----------------------------------------------------------------------

  /** Neither side is asked to take more than it does. */
  predicate Fits(link: Link, events: seq<Event>) {
    && |Replies(events, link.room)| <= link.clientTakes
    && var payloads := Payloads(Messages(events));
    (if link.isTcp then |Flatten(payloads)| else |payloads|) <= link.upstreamTakes
  }

  /** How the events leave the loop. */
  function TurnAfter(link: Link, events: seq<Event>): Turn {
    if events == [] then GoOn
    else TurnOn(events[|events| - 1], Fits(link, events), !link.isTcp || link.shutsDown)
  }

  /** Every event but the last left the loop running, and the last one left it at `turn`. */
  ghost predicate Went(link: Link, events: seq<Event>, turn: Turn) {
    && TurnAfter(link, events) == turn
    && (forall k :: 0 <= k < |events| ==> TurnAfter(link, events[..k]) == GoOn)
  }

  /** The events after which a session does not go on. */
  predicate EndsSession(e: Event) {
    e in {FromClient(Close), FromClient(Broken), ClientGone, UpstreamEnded, UpstreamFailed}
  }

  /** Such an event, or a write that fails, is the last one and there was none before; the session
      finished if it was ended by a side that closed or came to its end, and failed otherwise. */
  ghost predicate EndedAt(link: Link, events: seq<Event>, turn: Turn) {
    && events != [] && turn != GoOn
    && (forall k :: 0 <= k < |events| - 1 ==> !EndsSession(events[k]))
    && var last := events[|events| - 1];
    && (turn.Finished? <==>
          last == UpstreamEnded
          || ((last == ClientGone || last == FromClient(Close)) && (link.isTcp ==> link.shutsDown)))
    && (!EndsSession(last) ==> !Fits(link, events))
    && Fits(link, events[..|events| - 1])
  }

  lemma WentMeansEndedAt(link: Link, events: seq<Event>, turn: Turn)
    requires Went(link, events, turn) && turn != GoOn
    ensures EndedAt(link, events, turn)
  {
    hide Fits;
    var n := |events| - 1;
    forall k | 0 <= k < n ensures !EndsSession(events[k]) {
      assert TurnAfter(link, events[..k + 1]) == GoOn && events[..k + 1][k] == events[k];
    }
    StillFits(link, events[..n]);
  }

  lemma GoOnHasNoEnd(link: Link, events: seq<Event>)
    requires Went(link, events, GoOn)
    ensures forall e :: e in events ==> !EndsSession(e)
  {
    hide Fits;
    forall k | 0 <= k < |events| ensures !EndsSession(events[k]) {
      assert events[..k + 1][k] == events[k];
      assert events[..|events|] == events;
      assert TurnAfter(link, events[..k + 1]) == GoOn;
    }
  }

  lemma GoesOn(link: Link, events: seq<Event>, e: Event)
    requires Went(link, events, GoOn)
    ensures Went(link, events + [e], TurnAfter(link, events + [e]))
    ensures TurnAfter(link, events + [e])
            == TurnOn(e, Fits(link, events + [e]), !link.isTcp || link.shutsDown)
  {
    hide Fits, TurnOn;
    forall k | 0 <= k <= |events| ensures TurnAfter(link, (events + [e])[..k]) == GoOn {
      assert (events + [e])[..k] == events[..k];
      assert events[..|events|] == events;
    }
  }

  lemma StillFits(link: Link, events: seq<Event>)
    requires TurnAfter(link, events) == GoOn
    ensures Fits(link, events)
  {
  }

  lemma WentStillFits(link: Link, events: seq<Event>)
    requires Went(link, events, GoOn)
    ensures Fits(link, events)
  {
  }

  /** Only a message or a piece from the upstream lets the loop go on. */
  lemma EndIsEnd(e: Event, shutsDown: bool)
    ensures forall fits :: TurnOn(e, fits, shutsDown) == GoOn ==> e.FromClient? || e.FromUpstream?
  {
  }

  /** What the client has got of a loop that `Went`, and so what `Replies` says, carries the pieces
      of the upstream and the answers to its pings; all of them when the loop finished. */
  lemma ClientConserves(link: Link, events: seq<Event>, turn: Turn, ws: seq<Message>)
    requires Went(link, events, turn) && ws == Taken(Replies(events, link.room), link.clientTakes)
    requires forall c :: c in Chunks(events) ==> |c| <= link.room
    ensures Payloads(ws) <= Chunks(events) && Pongs(ws) <= Pings(Messages(events))
    ensures !turn.Failed? ==> Payloads(ws) == Chunks(events) && Pongs(ws) == Pings(Messages(events))
  {
    hide Messages, Chunks, Replies, Payloads, Pings, Pongs, Flatten;
    RepliesConserve(events, link.room);
    TakenCarriesPrefix(Replies(events, link.room), link.clientTakes);
    if turn.GoOn? {
      StillFits(link, events);
    } else if turn.Finished? {
      var n := |events| - 1;
      var before := events[..n];
      assert before + [events[n]] == events;
      SnocEvent(before, events[n], link.room);
      StillFits(link, before);
      SentButConserves(events, link.room, ws);
    }
  }

  /** And the upstream was asked for nothing by the event that finished the loop. */
  lemma FinishedFits(link: Link, events: seq<Event>)
    requires Went(link, events, Finished)
    ensures var payloads := Payloads(Messages(events));
            (if link.isTcp then |Flatten(payloads)| else |payloads|) <= link.upstreamTakes
  {
    hide Messages, Payloads, Flatten;
    var n := |events| - 1;
    var before := events[..n];
    assert before + [events[n]] == events;
    SnocPayloads(before, events[n]);
    StillFits(link, before);
  }

  // ----- TCP ----------------------------------------------------------------------------------

  /** Both sides have what `events` ask for, as far as they take it. */
  predicate TcpDelivered(link: Link, events: seq<Event>, tcpOut: seq<byte>,
                         wsOut: seq<Message>) {
    && tcpOut == Taken(Flatten(Payloads(Messages(events))), link.upstreamTakes)
    && wsOut == Taken(Replies(events, link.room), link.clientTakes)
  }

  lemma TcpStart(link: Link, ws: seq<Message>, tcp: seq<byte>)
    ensures TcpConsumed(link, [], ws, tcp, ws, tcp)
    ensures TcpDelivered(link, [], [], []) && Fits(link, [])
    ensures Went(link, [], GoOn)
  {
  }

  lemma TcpSizes(link: Link, events: seq<Event>, tcp: seq<byte>, ws: seq<Message>)
    requires link.isTcp && TcpDelivered(link, events, tcp, ws) && Fits(link, events)
    ensures |tcp| <= link.upstreamTakes && |ws| <= link.clientTakes
  {
  }

  lemma TcpNext(link: Link, events: seq<Event>, e: Event, tcp: seq<byte>, ws: seq<Message>)
    requires link.isTcp && TcpDelivered(link, events, tcp, ws) && Fits(link, events)
    ensures TcpDelivered(link, events + [e],
              Taken(tcp + Sent(e), link.upstreamTakes), Taken(ws + Reply(e, link.room), link.clientTakes))
    ensures Fits(link, events + [e]) <==>
              |tcp + Sent(e)| <= link.upstreamTakes && |ws + Reply(e, link.room)| <= link.clientTakes
  {
    hide Messages, Chunks, Replies, Payloads, Flatten, PayloadOf, Reply;
    SnocEvent(events, e, link.room);
    SnocPayloads(events, e);
  }

  /** Of `messages` and `bytes`, `wsLeft` and `tcpLeft` have not been read; and why reading stopped. */
  predicate TcpConsumed(link: Link, events: seq<Event>, messages: seq<Message>,
                        bytes: seq<byte>, wsLeft: seq<Message>, tcpLeft: seq<byte>) {
    && messages == Messages(events) + wsLeft && bytes == Flatten(Chunks(events)) + tcpLeft
    && (forall c :: c in Chunks(events) ==> 1 <= |c| <= link.room)
    && EndsExplained(link, events, wsLeft, tcpLeft)
  }

  /** A side is found at its end only when everything it had to send was read. */
  predicate EndsExplained(link: Link, events: seq<Event>, wsLeft: seq<Message>, tcpLeft: seq<byte>) {
    && (ClientGone in events ==> wsLeft == [])
    && (UpstreamEnded in events ==> tcpLeft == [] && !link.readFails)
    && (UpstreamFailed in events ==> tcpLeft == [] && link.readFails)
  }

  /** What an event takes from the two sides. */
  predicate TcpTakes(link: Link, e: Event, ws: seq<Message>, tcp: seq<byte>,
                     wsLeft: seq<Message>, tcpLeft: seq<byte>) {
    match e
    case FromClient(m) => ws == [m] + wsLeft && tcp == tcpLeft
    case ClientGone => ws == wsLeft == [] && tcp == tcpLeft
    case FromUpstream(bytes) => ws == wsLeft && tcp == bytes + tcpLeft && 1 <= |bytes| <= link.room
    case UpstreamEnded => ws == wsLeft && tcp == tcpLeft == [] && !link.readFails
    case UpstreamFailed => ws == wsLeft && tcp == tcpLeft == [] && link.readFails
  }

  lemma ChunksFit(link: Link, events: seq<Event>, messages: seq<Message>,
                  bytes: seq<byte>, ws: seq<Message>, tcp: seq<byte>)
    requires TcpConsumed(link, events, messages, bytes, ws, tcp)
    ensures forall c :: c in Chunks(events) ==> |c| <= link.room
  {
  }

  lemma Regroup<T>(a: seq<T>, b: seq<T>, c: seq<T>)
    ensures a + (b + c) == a + b + c
  {
  }

  lemma EndsStayExplained(link: Link, events: seq<Event>, e: Event, ws: seq<Message>,
                          tcp: seq<byte>, wsLeft: seq<Message>, tcpLeft: seq<byte>)
    requires EndsExplained(link, events, ws, tcp)
    requires TcpTakes(link, e, ws, tcp, wsLeft, tcpLeft)
    ensures EndsExplained(link, events + [e], wsLeft, tcpLeft)
  {
  }

  lemma TcpConsumesNext(link: Link, events: seq<Event>, e: Event,
                        messages: seq<Message>, bytes: seq<byte>, ws: seq<Message>, tcp: seq<byte>,
                        wsLeft: seq<Message>, tcpLeft: seq<byte>)
    requires TcpConsumed(link, events, messages, bytes, ws, tcp)
    requires TcpTakes(link, e, ws, tcp, wsLeft, tcpLeft)
    ensures TcpConsumed(link, events + [e], messages, bytes, wsLeft, tcpLeft)
  {
    hide Messages, Chunks, Flatten, EndsExplained;
    SnocEvent(events, e, link.room);
    var all := events + [e];
    EndsStayExplained(link, events, e, ws, tcp, wsLeft, tcpLeft);
    if e.FromClient? {
      Regroup(Messages(events), [e.message], wsLeft);
      assert Chunks(all) == Chunks(events);
    } else if e.FromUpstream? {
      Regroup(Flatten(Chunks(events)), e.bytes, tcpLeft);
      assert forall c :: c in Chunks(all) <==> c in Chunks(events) || c == e.bytes;
    } else {
      assert Chunks(all) == Chunks(events) && Messages(all) == Messages(events);
    }
  }

  /** What was delivered is what was consumed, in both directions. */
  ghost predicate TcpConserved(events: seq<Event>, tcpOut: seq<byte>, wsOut: seq<Message>) {
    && tcpOut == Flatten(Payloads(Messages(events)))
    && (NoBinary(Messages(events)) ==> Utf8.Decode(tcpOut) == Some(Texts(Messages(events))))
    && (exists pieces :: CarriedBy(Messages(events), pieces) && tcpOut == Flatten(pieces))
    && Payloads(wsOut) == Chunks(events) && Pongs(wsOut) == Pings(Messages(events))
  }

  /** The same up to a failed write: what was delivered is a prefix. */
  predicate TcpPartlyDelivered(events: seq<Event>, tcpOut: seq<byte>, wsOut: seq<Message>) {
    && tcpOut <= Flatten(Payloads(Messages(events)))
    && Payloads(wsOut) <= Chunks(events) && Pongs(wsOut) <= Pings(Messages(events))
  }

  lemma TcpConserves(link: Link, events: seq<Event>, turn: Turn, tcp: seq<byte>, ws: seq<Message>)
    requires link.isTcp && TcpDelivered(link, events, tcp, ws) && Went(link, events, turn)
    requires turn != GoOn && forall c :: c in Chunks(events) ==> |c| <= link.room
    ensures TcpPartlyDelivered(events, tcp, ws)
    ensures turn.Finished? ==> TcpConserved(events, tcp, ws)
  {
    hide Messages, Chunks, Replies, Payloads, Pings, Pongs, Flatten, Went;
    ClientConserves(link, events, turn, ws);
    if turn.Finished? {
      FinishedFits(link, events);
      PayloadsAreCarried(Messages(events));
      if NoBinary(Messages(events)) {
        TextsArrive(Messages(events));
      }
    }
  }

  /** What each kind of message, or the end of the client's stream, does to a session. */
  predicate MessageTurn(message: Option<Message>, turn: Turn, shutsDown: bool) {
    match message
    case None => turn == if shutsDown then Finished else Failed
    case Some(Close) => turn == if shutsDown then Finished else Failed
    case Some(Broken) => turn.Failed?
    case Some(Pong(_)) => turn.GoOn?
    case Some(RawFrame) => turn.GoOn?
    case Some(_) => turn != Finished
  }

  /** What a message adds to the upstream's bytes: its own bytes, or bytes that read back as its text. */
  predicate SentOf(message: Option<Message>, before: seq<byte>, after: seq<byte>) {
    match message
    case Some(Binary(bytes)) => after == before + bytes
    case Some(TextMessage(text)) => before <= after && Utf8.Decode(after[|before|..]) == Some(text)
    case _ => after == before
  }

  predicate RepliedTo(message: Option<Message>, before: seq<Message>, after: seq<Message>) {
    after == if message.Some? && message.value.Ping? then before + [Pong(message.value.payload)] else before
  }

  class TcpSession {
    var wsInbox: seq<Message>    // what the client will send before its stream ends
    var tcpInbox: seq<byte>      // what the upstream will send before its stream ends or fails
    var wsOut: seq<Message>
    var tcpOut: seq<byte>
    var tcpShutDown: bool
    const buffer: array<byte>
    const link: Link

    ghost predicate Valid() {
      link.isTcp && link.room == buffer.Length > 0
    }

    constructor (messages: seq<Message>, bytes: seq<byte>, link: Link)
      requires link.isTcp && link.room > 0
      ensures Valid() && fresh(buffer) && this.link == link
      ensures wsInbox == messages && tcpInbox == bytes && wsOut == [] && tcpOut == [] && !tcpShutDown
    {
      wsInbox, tcpInbox, wsOut, tcpOut, tcpShutDown := messages, bytes, [], [], false;
      buffer, this.link := new byte[link.room](_ => 0), link;
    }

    /** No more was written than is taken. */
    ghost predicate HasRoom()
      reads this`tcpOut, this`wsOut
    {
      |tcpOut| <= link.upstreamTakes && |wsOut| <= link.clientTakes
    }

    /** `write_all`: all the bytes, or as many as are taken and a failure. */
    method WriteAll(bytes: seq<byte>) returns (ok: bool)
      requires |tcpOut| <= link.upstreamTakes
      modifies this`tcpOut
      ensures tcpOut == Taken(old(tcpOut) + bytes, link.upstreamTakes)
      ensures ok <==> |old(tcpOut) + bytes| <= link.upstreamTakes
    {
      var room := link.upstreamTakes - |tcpOut|;
      ok := |bytes| <= room;
      tcpOut := tcpOut + Taken(bytes, room);
    }

    method Send(m: Message) returns (ok: bool)
      requires |wsOut| <= link.clientTakes
      modifies this`wsOut
      ensures wsOut == Taken(old(wsOut) + [m], link.clientTakes)
      ensures ok <==> |old(wsOut)| < link.clientTakes
    {
      ok := |wsOut| < link.clientTakes;
      if ok {
        wsOut := wsOut + [m];
      } else {
        assert (wsOut + [m])[..|wsOut|] == wsOut;
      }
    }

    method ShutDownUpstream() returns (turn: Turn)
      modifies this`tcpShutDown
      ensures turn == if link.shutsDown then Finished else Failed
      ensures tcpShutDown == (old(tcpShutDown) || link.shutsDown)
    {
      if link.shutsDown {
        tcpShutDown := true;
        return Finished;
      }
      turn := Failed;
    }

    /** Reads into the front of the buffer; 0 bytes at the end of the stream only. */
    method ReadTcp() returns (n: nat)
      requires Valid()
      modifies this`tcpInbox, buffer
      ensures n <= buffer.Length && n <= |old(tcpInbox)|
      ensures n == 0 <==> old(tcpInbox) == []
      ensures buffer[..n] == old(tcpInbox)[..n] && tcpInbox == old(tcpInbox)[n..]
    {
      n :| 0 <= n <= buffer.Length && n <= |tcpInbox| && (n == 0 <==> tcpInbox == []);
      forall i | 0 <= i < n {
        buffer[i] := tcpInbox[i];
      }
      tcpInbox := tcpInbox[n..];
    }

    /** What the client's side yields: a message, or `None` at the end of its stream. */
    method HandleMessage(message: Option<Message>) returns (turn: Turn)
      requires HasRoom()
      modifies this`tcpOut, this`wsOut, this`tcpShutDown
      ensures var e := if message.Some? then FromClient(message.value) else ClientGone;
              && tcpOut == Taken(old(tcpOut) + Sent(e), link.upstreamTakes)
              && wsOut == Taken(old(wsOut) + Reply(e, link.room), link.clientTakes)
              && turn == TurnOn(e, |old(tcpOut) + Sent(e)| <= link.upstreamTakes
                                   && |old(wsOut) + Reply(e, link.room)| <= link.clientTakes,
                                link.shutsDown)
      ensures tcpShutDown == (old(tcpShutDown) || turn.Finished?)
      ensures MessageTurn(message, turn, link.shutsDown)
      ensures turn.GoOn? ==> SentOf(message, old(tcpOut), tcpOut) && RepliedTo(message, old(wsOut), wsOut)
    {
      assert wsOut + [] == wsOut && tcpOut + [] == tcpOut;
      turn := GoOn;
      match message {
        case Some(Binary(_)) | Some(TextMessage(_)) =>
          TextReadsBack(message.value);
          var ok := WriteAll(PayloadOf(message.value));
          turn := if ok then GoOn else Failed;
        case Some(Ping(payload)) =>
          var ok := Send(Pong(payload));
          turn := if ok then GoOn else Failed;
        case Some(Pong(_)) =>
        case Some(RawFrame) =>
        case Some(Close) =>
          turn := ShutDownUpstream();
        case Some(Broken) =>
          turn := Failed;
        case None =>
          turn := ShutDownUpstream();
      }
    }

    /** One read from the upstream. */
    method HandleUpstream() returns (turn: Turn, ghost e: Event)
      requires Valid() && HasRoom()
      modifies this`tcpInbox, this`wsOut, buffer
      ensures e.FromUpstream? ==>
                1 <= |e.bytes| <= buffer.Length && old(tcpInbox) == e.bytes + tcpInbox
      ensures !e.FromUpstream? ==>
                tcpInbox == old(tcpInbox) == []
                && e == if link.readFails then UpstreamFailed else UpstreamEnded
      ensures wsOut == Taken(old(wsOut) + Reply(e, link.room), link.clientTakes)
      ensures turn == TurnOn(e, |old(wsOut) + Reply(e, link.room)| <= link.clientTakes,
                             link.shutsDown)
      ensures turn.GoOn? ==> e.FromUpstream? && wsOut == old(wsOut) + [Binary(e.bytes)]
      ensures turn.Finished? <==> e.UpstreamEnded?
      ensures turn.Finished? && |old(wsOut)| < link.clientTakes ==> wsOut == old(wsOut) + [Close]
    {
      assert wsOut + [] == wsOut;
      if tcpInbox == [] && link.readFails {
        return Failed, UpstreamFailed;
      }
      var n := ReadTcp();
      if n == 0 {
        var _ := Send(Close);
        return Finished, UpstreamEnded;
      }
      e := FromUpstream(buffer[..n]);
      var ok := Send(Binary(buffer[..n]));
      turn := if ok then GoOn else Failed;
    }

    ghost predicate Delivered(events: seq<Event>)
      reads this`tcpOut, this`wsOut
    {
      TcpDelivered(link, events, tcpOut, wsOut)
    }

    ghost predicate Consumed(events: seq<Event>, messages: seq<Message>, bytes: seq<byte>)
      reads this`wsInbox, this`tcpInbox
    {
      TcpConsumed(link, events, messages, bytes, wsInbox, tcpInbox)
    }

    /** One turn of the loop. */
    method TakeTurn() returns (turn: Turn, ghost e: Event)
      requires Valid() && HasRoom() && !tcpShutDown
      modifies this, buffer
      ensures TcpTakes(link, e, old(wsInbox), old(tcpInbox), wsInbox, tcpInbox)
      ensures tcpOut == Taken(old(tcpOut) + Sent(e), link.upstreamTakes)
      ensures wsOut == Taken(old(wsOut) + Reply(e, link.room), link.clientTakes)
      ensures turn == TurnOn(e, |old(tcpOut) + Sent(e)| <= link.upstreamTakes
                                && |old(wsOut) + Reply(e, link.room)| <= link.clientTakes,
                             link.shutsDown)
      ensures tcpShutDown <==> turn.Finished? && e != UpstreamEnded
    {
      var websocketIsReady: bool := *;
      if !websocketIsReady {
        assert tcpOut + [] == tcpOut;
        turn, e := HandleUpstream();
      } else if wsInbox == [] {
        e := ClientGone;
        turn := HandleMessage(None);
      } else {
        var m := wsInbox[0];
        wsInbox := wsInbox[1..];
        e := FromClient(m);
        turn := HandleMessage(Some(m));
      }
    }

    /** Forwarding conserves data. The loop ends at the first event that ends it: a close frame or
        the end of either stream finishes it, an unreadable frame, a failing read, a failing shutdown
        or a side that takes no more fails it, and nothing after that is consumed. Until then the
        client's data messages reach the upstream as the concatenation of their payloads in order,
        the upstream's bytes reach the client unchanged in frames of 1 to `buffer_size` bytes, and
        pings are answered in order; after a failed write what was delivered is a prefix. */
    method Forward() returns (outcome: Turn, ghost events: seq<Event>)
      requires Valid() && wsOut == [] && tcpOut == [] && !tcpShutDown
      modifies this, buffer
      ensures Went(link, events, outcome) && EndedAt(link, events, outcome)
      ensures Consumed(events, old(wsInbox), old(tcpInbox)) && Delivered(events)
      ensures tcpShutDown <==> outcome.Finished? && UpstreamEnded !in events
      ensures if outcome.Finished? then TcpConserved(events, tcpOut, wsOut)
              else TcpPartlyDelivered(events, tcpOut, wsOut)
    {
      hide TcpConserved, TcpPartlyDelivered, TcpDelivered, TcpConsumed, Went, TurnAfter, Fits, TurnOn,
           Sent, Reply, Taken;
      events, outcome := [], GoOn;
      TcpStart(link, wsInbox, tcpInbox);
      while outcome.GoOn?
        invariant Went(link, events, outcome)
        invariant Consumed(events, old(wsInbox), old(tcpInbox)) && Delivered(events)
        invariant outcome.GoOn? ==> UpstreamEnded !in events
        invariant tcpShutDown <==> outcome.Finished? && UpstreamEnded !in events
        decreases outcome.GoOn?, |wsInbox| + |tcpInbox|
      {
        label before:
        ghost var e;
        WentStillFits(link, events);
        TcpSizes(link, events, tcpOut, wsOut);
        outcome, e := TakeTurn();
        TcpNext(link, events, e, old@before(tcpOut), old@before(wsOut));
        TcpConsumesNext(link, events, e, old(wsInbox), old(tcpInbox),
                        old@before(wsInbox), old@before(tcpInbox), wsInbox, tcpInbox);
        GoesOn(link, events, e);
        EndIsEnd(e, link.shutsDown);
        events := events + [e];
      }
      WentMeansEndedAt(link, events, outcome);
      ChunksFit(link, events, old(wsInbox), old(tcpInbox), wsInbox, tcpInbox);
      TcpConserves(link, events, outcome, tcpOut, wsOut);
    }
  }

  // ----- UDP ----------------------------------------------------------------------------------

  const UDP_DATAGRAM_BUFFER := 65536
  const MAX_UDP_PAYLOAD := 65507

  /** Something a side has ready from `time` on, and when it was picked. */
  datatype Arrival = Arrival(time: nat, event: Event)

  datatype Handled = Handled(at: nat, arrival: Arrival)

  predicate OfClient(e: Event) { e.FromClient? || e.ClientGone? }

  /** What one side will have, in the order of its arrival. A receive that fails is an arrival too. */
  predicate Inbox(side: seq<Arrival>, client: bool) {
    && (forall a :: a in side ==>
          if client then OfClient(a.event) else a.event.FromUpstream? || a.event.UpstreamFailed?)
    && (forall i, j :: 0 <= i < j < |side| ==> side[i].time <= side[j].time)
  }

  function Events(history: seq<Handled>): seq<Event> {
    if history == [] then []
    else Events(history[..|history| - 1]) + [history[|history| - 1].arrival.event]
  }

  /** What was handled of one side. */
  function Arrivals(history: seq<Handled>, client: bool): seq<Arrival> {
    if history == [] then []
    else
      var a := history[|history| - 1].arrival;
      Arrivals(history[..|history| - 1], client) + (if OfClient(a.event) == client then [a] else [])
  }

  lemma SnocHandled(history: seq<Handled>, h: Handled)
    ensures Events(history + [h]) == Events(history) + [h.arrival.event]
    ensures forall client :: Arrivals(history + [h], client)
              == Arrivals(history, client) + (if OfClient(h.arrival.event) == client then [h.arrival] else [])
  {
    assert (history + [h])[..|history|] == history;
  }

  /** Everything was picked after it had arrived, in this order, between `from` and `until`. */
  predicate Timely(history: seq<Handled>, from: nat, until: nat) {
    && from <= until
    && (forall h :: h in history ==> from <= h.at <= until && h.arrival.time <= h.at)
    && (forall i, j :: 0 <= i < j < |history| ==> history[i].at <= history[j].at)
  }

  lemma TimelyNext(history: seq<Handled>, h: Handled, from: nat, until: nat, later: nat)
    requires Timely(history, from, until) && until <= h.at <= later && h.arrival.time <= h.at
    ensures Timely(history + [h], from, later)
  {
  }

  /** The datagrams an event sends to the upstream. */
  function SentDatagrams(e: Event): seq<seq<byte>> {
    if e.FromClient? && IsData(e.message) then [PayloadOf(e.message)] else []
  }

  /** Both sides have what `events` ask for, as far as they take it; `idle` adds a close frame. */
  predicate UdpDelivered(link: Link, events: seq<Event>, idle: bool, udpOut: seq<seq<byte>>,
                         wsOut: seq<Message>) {
    && udpOut == Taken(Payloads(Messages(events)), link.upstreamTakes)
    && wsOut == Taken(Replies(events, link.room) + (if idle then [Close] else []), link.clientTakes)
  }

  lemma ClosesIdle(link: Link, events: seq<Event>, udp: seq<seq<byte>>, ws: seq<Message>)
    requires UdpDelivered(link, events, false, udp, ws) && Fits(link, events)
    ensures UdpDelivered(link, events, true, udp, Taken(ws + [Close], link.clientTakes))
  {
    hide Messages, Replies, Payloads;
    assert Replies(events, link.room) + [] == Replies(events, link.room);
  }

  lemma UdpStart(link: Link, now: nat)
    ensures Timely([], now, now)
    ensures UdpDelivered(link, [], false, [], []) && Fits(link, []) && Went(link, [], GoOn)
    ensures Events([]) == [] && forall client :: Arrivals([], client) == []
  {
  }

  lemma UdpSizes(link: Link, events: seq<Event>, udp: seq<seq<byte>>, ws: seq<Message>)
    requires !link.isTcp && UdpDelivered(link, events, false, udp, ws) && Fits(link, events)
    ensures |udp| <= link.upstreamTakes && |ws| <= link.clientTakes
  {
  }

  lemma UdpNext(link: Link, events: seq<Event>, e: Event, udp: seq<seq<byte>>, ws: seq<Message>)
    requires !link.isTcp && UdpDelivered(link, events, false, udp, ws) && Fits(link, events)
    ensures UdpDelivered(link, events + [e], false, Taken(udp + SentDatagrams(e), link.upstreamTakes),
                         Taken(ws + Reply(e, link.room), link.clientTakes))
    ensures Fits(link, events + [e]) <==>
              |udp + SentDatagrams(e)| <= link.upstreamTakes && |ws + Reply(e, link.room)| <= link.clientTakes
  {
    hide Messages, Chunks, Replies, Payloads, Flatten, PayloadOf, Reply;
    SnocEvent(events, e, link.room);
    SnocPayloads(events, e);
    assert forall ms: seq<Message> :: ms + [] == ms;
  }

  /** One datagram for each data message and one binary message for each datagram, in order. */
  predicate UdpConserved(events: seq<Event>, udpOut: seq<seq<byte>>, wsOut: seq<Message>) {
    && udpOut == Payloads(Messages(events)) && CarriedBy(Messages(events), udpOut)
    && Payloads(wsOut) == Chunks(events) && Pongs(wsOut) == Pings(Messages(events))
  }

  predicate UdpPartlyDelivered(events: seq<Event>, udpOut: seq<seq<byte>>, wsOut: seq<Message>) {
    && udpOut <= Payloads(Messages(events))
    && Payloads(wsOut) <= Chunks(events) && Pongs(wsOut) <= Pings(Messages(events))
  }

  lemma CloseIsLast(ws: seq<Message>, n: nat)
    requires |ws| <= n
    ensures var all := Taken(ws + [Close], n);
            (all != [] && all[|all| - 1] == Close) || |all| == n
  {
  }

  /** A close frame at the end changes nothing of what was delivered. */
  lemma CloseCarriesNothing(ws: seq<Message>, n: nat)
    requires |ws| <= n
    ensures Payloads(Taken(ws + [Close], n)) == Payloads(ws) && Pongs(Taken(ws + [Close], n)) == Pongs(ws)
  {
    hide Payloads, Pings, Pongs, Flatten;
    Snoc(ws, Close);
    if |ws| == n {
      assert (ws + [Close])[..n] == ws;
    } else {
      assert Payloads(ws) + [] == Payloads(ws) && Pongs(ws) + [] == Pongs(ws);
    }
  }

  /** A loop that delivers what the events ask for keeps datagrams whole, for no datagram that can be
      sent is larger than the receive buffer. */
  lemma UdpConserves(link: Link, events: seq<Event>, turn: Turn, idle: bool, udp: seq<seq<byte>>,
                     ws: seq<Message>)
    requires !link.isTcp && link.room == UDP_DATAGRAM_BUFFER && (idle ==> turn == GoOn)
    requires UdpDelivered(link, events, idle, udp, ws) && Went(link, events, turn)
    requires forall c :: c in Chunks(events) ==> |c| <= MAX_UDP_PAYLOAD
    ensures UdpPartlyDelivered(events, udp, ws)
    ensures !turn.Failed? ==> UdpConserved(events, udp, ws)
  {
    hide Messages, Chunks, Replies, Payloads, Pings, Pongs, Flatten, Went;
    var replies := Replies(events, link.room);
    assert replies + [] == replies;
    ClientConserves(link, events, turn, Taken(replies, link.clientTakes));
    PayloadsAreCarried(Messages(events));
    if turn.Finished? {
      FinishedFits(link, events);
    } else if turn.GoOn? {
      WentStillFits(link, events);
      CloseCarriesNothing(replies, link.clientTakes);
    }
  }

  /** Nothing has waited for longer than `lag`. */
  predicate NothingWaits(side: seq<Arrival>, now: nat, lag: nat) {
    forall a :: a in side ==> now <= a.time + lag
  }

  /** A turn that found nothing before its deadline began after everything that was handled. */
  lemma IdleIsQuiet(history: seq<Handled>, from: nat, start: nat, timeout: nat, now: nat)
    requires Timely(history, from, start) && start + timeout <= now
    ensures Timely(history, from, now) && from + timeout <= now
    ensures forall h :: h in history ==> h.at + timeout <= now
  {
  }

  lemma FirstWaitsLongest(side: seq<Arrival>, client: bool, now: nat, lag: nat)
    requires Inbox(side, client) && (side != [] ==> now <= side[0].time + lag)
    ensures NothingWaits(side, now, lag)
  {
  }

  /** Which side a turn serves. */
  datatype Side = Client | Upstream | Nobody

  /** What a message adds to the upstream's datagrams. */
  predicate DatagramOf(message: Option<Message>, before: seq<seq<byte>>, after: seq<seq<byte>>) {
    match message
    case Some(Binary(bytes)) => after == before + [bytes]
    case Some(TextMessage(text)) =>
      |after| == |before| + 1 && before <= after && Utf8.Decode(after[|before|]) == Some(text)
    case _ => after == before
  }

  class UdpSession {
    var wsInbox: seq<Arrival>
    var udpInbox: seq<Arrival>
    var wsOut: seq<Message>
    var udpOut: seq<seq<byte>>
    var clock: nat
    const idleTimeout: nat
    const lag: nat               // how late the runtime may look at what is ready
    const link: Link

    ghost predicate Valid()
      reads this`wsInbox, this`udpInbox
    {
      && !link.isTcp && link.room == UDP_DATAGRAM_BUFFER
      && Inbox(wsInbox, true) && Inbox(udpInbox, false)
    }

    ghost predicate HasRoom()
      reads this`udpOut, this`wsOut
    {
      |udpOut| <= link.upstreamTakes && |wsOut| <= link.clientTakes
    }

    constructor (messages: seq<Arrival>, datagrams: seq<Arrival>, now: nat, idleTimeout: nat, lag: nat,
                 clientTakes: nat, upstreamTakes: nat)
      requires Inbox(messages, true) && Inbox(datagrams, false)
      ensures Valid() && wsInbox == messages && udpInbox == datagrams && wsOut == [] && udpOut == []
      ensures clock == now && this.idleTimeout == idleTimeout && this.lag == lag
      ensures link.clientTakes == clientTakes && link.upstreamTakes == upstreamTakes
    {
      wsInbox, udpInbox, wsOut, udpOut, clock := messages, datagrams, [], [], now;
      this.idleTimeout, this.lag := idleTimeout, lag;
      link := Link(false, UDP_DATAGRAM_BUFFER, clientTakes, upstreamTakes, true, true);
    }

    predicate Ready(side: seq<Arrival>)
      reads this`clock
    {
      side != [] && side[0].time <= clock
    }

    /** From when on a turn that began now has something to do: an arrival or its deadline. */
    function Due(deadline: nat): nat
      reads this`clock, this`wsInbox, this`udpInbox
    {
      var due := if wsInbox != [] && wsInbox[0].time < deadline then wsInbox[0].time else deadline;
      var due := if udpInbox != [] && udpInbox[0].time < due then udpInbox[0].time else due;
      if due < clock then clock else due
    }

    /** `select!` over the two sides, each under its own timer: it looks at them in either order, and
        on each side first for an arrival and then at the timer. */
    method Select(deadline: nat) returns (side: Side)
      requires clock <= deadline
      modifies this`clock
      ensures old(Due(deadline)) <= clock <= old(Due(deadline)) + lag
      ensures side.Client? ==> Ready(wsInbox)
      ensures side.Upstream? ==> Ready(udpInbox)
      ensures side.Nobody? ==> clock >= deadline && (!Ready(wsInbox) || !Ready(udpInbox))
    {
      var lateness: nat :| lateness <= lag;
      clock := Due(deadline) + lateness;
      var clientFirst: bool := *;
      if clientFirst {
        if Ready(wsInbox) {
          return Client;
        }
        side := if clock >= deadline then Nobody else Upstream;
      } else {
        if Ready(udpInbox) {
          return Upstream;
        }
        side := if clock >= deadline then Nobody else Client;
      }
    }

    method Send(m: Message) returns (ok: bool)
      requires |wsOut| <= link.clientTakes
      modifies this`wsOut
      ensures wsOut == Taken(old(wsOut) + [m], link.clientTakes)
      ensures ok <==> |old(wsOut)| < link.clientTakes
    {
      ok := |wsOut| < link.clientTakes;
      if ok {
        wsOut := wsOut + [m];
      } else {
        assert (wsOut + [m])[..|wsOut|] == wsOut;
      }
    }

    method SendDatagram(d: seq<byte>) returns (ok: bool)
      requires |udpOut| <= link.upstreamTakes
      modifies this`udpOut
      ensures udpOut == Taken(old(udpOut) + [d], link.upstreamTakes)
      ensures ok <==> |old(udpOut)| < link.upstreamTakes
    {
      ok := |udpOut| < link.upstreamTakes;
      if ok {
        udpOut := udpOut + [d];
      } else {
        assert (udpOut + [d])[..|udpOut|] == udpOut;
      }
    }

    /** What the client's side yields: a message, or `None` at the end of its stream. */
    method HandleMessage(message: Option<Message>) returns (turn: Turn)
      requires HasRoom()
      modifies this`udpOut, this`wsOut
      ensures var e := if message.Some? then FromClient(message.value) else ClientGone;
              && udpOut == Taken(old(udpOut) + SentDatagrams(e), link.upstreamTakes)
              && wsOut == Taken(old(wsOut) + Reply(e, link.room), link.clientTakes)
              && turn == TurnOn(e, |old(udpOut) + SentDatagrams(e)| <= link.upstreamTakes
                                   && |old(wsOut) + Reply(e, link.room)| <= link.clientTakes, true)
      ensures MessageTurn(message, turn, true)
      ensures turn.GoOn? ==> DatagramOf(message, old(udpOut), udpOut) && RepliedTo(message, old(wsOut), wsOut)
    {
      assert wsOut + [] == wsOut && udpOut + [] == udpOut;
      turn := GoOn;
      match message {
        case Some(Binary(_)) | Some(TextMessage(_)) =>
          TextReadsBack(message.value);
          var ok := SendDatagram(PayloadOf(message.value));
          turn := if ok then GoOn else Failed;
        case Some(Ping(payload)) =>
          var ok := Send(Pong(payload));
          turn := if ok then GoOn else Failed;
        case Some(Pong(_)) =>
        case Some(RawFrame) =>
        case Some(Close) =>
          turn := Finished;
        case Some(Broken) =>
          turn := Failed;
        case None =>
          turn := Finished;
      }
    }

    /** What the upstream's side yields: a datagram, of which the buffer holds so much, or `None` when
        receiving fails. */
    method HandleDatagram(datagram: Option<seq<byte>>) returns (turn: Turn)
      requires HasRoom()
      modifies this`wsOut
      ensures var e := if datagram.Some? then FromUpstream(datagram.value) else UpstreamFailed;
              && wsOut == Taken(old(wsOut) + Reply(e, link.room), link.clientTakes)
              && turn == TurnOn(e, |old(wsOut) + Reply(e, link.room)| <= link.clientTakes, true)
      ensures turn.GoOn? ==>
                datagram.Some? && wsOut == old(wsOut) + [Binary(Taken(datagram.value, link.room))]
      ensures turn != Finished
    {
      assert wsOut + [] == wsOut;
      if datagram.None? {
        return Failed;
      }
      var ok := Send(Binary(Taken(datagram.value, link.room)));
      turn := if ok then GoOn else Failed;
    }

    /** Serves the side that was picked. */
    method Serve(side: Side) returns (turn: Turn, ghost arrival: Arrival)
      requires Valid() && HasRoom() && side != Nobody
      requires if side.Client? then wsInbox != [] else udpInbox != []
      modifies this`wsInbox, this`udpInbox, this`wsOut, this`udpOut
      ensures Valid() && OfClient(arrival.event) == side.Client?
      ensures if side.Client? then old(wsInbox) == [arrival] + wsInbox && udpInbox == old(udpInbox)
              else old(udpInbox) == [arrival] + udpInbox && wsInbox == old(wsInbox)
      ensures var e := arrival.event;
              && udpOut == Taken(old(udpOut) + SentDatagrams(e), link.upstreamTakes)
              && wsOut == Taken(old(wsOut) + Reply(e, link.room), link.clientTakes)
              && turn == TurnOn(e, |old(udpOut) + SentDatagrams(e)| <= link.upstreamTakes
                                   && |old(wsOut) + Reply(e, link.room)| <= link.clientTakes, true)
    {
      if side.Client? {
        arrival := wsInbox[0];
        var e := wsInbox[0].event;
        wsInbox := wsInbox[1..];
        turn := HandleMessage(if e.FromClient? then Some(e.message) else None);
      } else {
        arrival := udpInbox[0];
        var e := udpInbox[0].event;
        udpInbox := udpInbox[1..];
        assert udpOut + [] == udpOut;
        turn := HandleDatagram(if e.FromUpstream? then Some(e.bytes) else None);
      }
    }

    /** What was handled is what came first on either side. */
    ghost predicate Consumed(history: seq<Handled>, messages: seq<Arrival>, datagrams: seq<Arrival>)
      reads this`wsInbox, this`udpInbox
    {
      messages == Arrivals(history, true) + wsInbox && datagrams == Arrivals(history, false) + udpInbox
    }

    lemma ConsumesNext(history: seq<Handled>, h: Handled, messages: seq<Arrival>,
                       datagrams: seq<Arrival>, ws: seq<Arrival>, udp: seq<Arrival>)
      requires messages == Arrivals(history, true) + ws && datagrams == Arrivals(history, false) + udp
      requires if OfClient(h.arrival.event) then ws == [h.arrival] + wsInbox && udpInbox == udp
               else udp == [h.arrival] + udpInbox && wsInbox == ws
      ensures Consumed(history + [h], messages, datagrams)
    {
      hide Arrivals, OfClient;
      SnocHandled(history, h);
      if OfClient(h.arrival.event) {
        Regroup(Arrivals(history, true), [h.arrival], wsInbox);
        assert Arrivals(history, false) + [] == Arrivals(history, false);
      } else {
        Regroup(Arrivals(history, false), [h.arrival], udpInbox);
        assert Arrivals(history, true) + [] == Arrivals(history, true);
      }
    }

    /** Boundaries are kept: each data message becomes one datagram and each datagram one binary
        message, in order. Each turn gives both sides `idle_timeout` from when it began. The session
        closes for idleness only when, for that long, nothing was handled and, but for the runtime's
        own lag, nothing was there to be handled; otherwise it ends at the first event that ends it,
        and nothing after that is consumed. */
    method Forward() returns (outcome: Turn, idle: bool, ghost history: seq<Handled>)
      requires Valid() && wsOut == [] && udpOut == []
      modifies this
      ensures outcome != GoOn && Went(link, Events(history), if idle then GoOn else outcome)
      ensures !idle ==> EndedAt(link, Events(history), outcome)
      ensures idle ==> forall e :: e in Events(history) ==> !EndsSession(e)
      ensures idle ==> (wsOut != [] && wsOut[|wsOut| - 1] == Close) || |wsOut| == link.clientTakes
      ensures Consumed(history, old(wsInbox), old(udpInbox)) && Timely(history, old(clock), clock)
      ensures UdpDelivered(link, Events(history), idle, udpOut, wsOut)
      ensures idle ==> outcome.Finished? && old(clock) + idleTimeout <= clock
      ensures idle ==> forall h :: h in history ==> h.at + idleTimeout <= clock
      ensures idle ==> !Ready(wsInbox) || !Ready(udpInbox)
      ensures idle && lag < idleTimeout ==>
                NothingWaits(wsInbox, clock, lag) && NothingWaits(udpInbox, clock, lag)
      ensures (forall c :: c in Chunks(Events(history)) ==> |c| <= MAX_UDP_PAYLOAD) ==>
                if outcome.Finished? then UdpConserved(Events(history), udpOut, wsOut)
                else UdpPartlyDelivered(Events(history), udpOut, wsOut)
    {
      hide UdpConserved, UdpPartlyDelivered, UdpDelivered, Went, TurnAfter, Fits, TurnOn, Events,
           Arrivals, Taken, Reply, SentDatagrams, Chunks, Timely, NothingWaits, Inbox;
      history, idle, outcome := [], false, GoOn;
      UdpStart(link, clock);
      while outcome.GoOn?
        invariant !idle && Valid()
        invariant Went(link, Events(history), outcome)
        invariant UdpDelivered(link, Events(history), false, udpOut, wsOut)
        invariant Consumed(history, old(wsInbox), old(udpInbox)) && Timely(history, old(clock), clock)
        decreases outcome.GoOn?, |wsInbox| + |udpInbox|
      {
        label turn:
        WentStillFits(link, Events(history));
        UdpSizes(link, Events(history), udpOut, wsOut);
        var deadline := clock + idleTimeout;
        var side := Select(deadline);
        if side.Nobody? {
          IdleIsQuiet(history, old(clock), old@turn(clock), idleTimeout, clock);
          if lag < idleTimeout {
            FirstWaitsLongest(wsInbox, true, clock, lag);
            FirstWaitsLongest(udpInbox, false, clock, lag);
          }
          ClosesIdle(link, Events(history), udpOut, wsOut);
          GoOnHasNoEnd(link, Events(history));
          var _ := Send(Close);
          CloseIsLast(old@turn(wsOut), link.clientTakes);
          if forall c :: c in Chunks(Events(history)) ==> |c| <= MAX_UDP_PAYLOAD {
            UdpConserves(link, Events(history), GoOn, true, udpOut, wsOut);
          }
          return Finished, true, history;
        }
        ghost var now := clock;
        ghost var arrival;
        outcome, arrival := Serve(side);
        ghost var h := Handled(now, arrival);
        UdpNext(link, Events(history), arrival.event, old@turn(udpOut), old@turn(wsOut));
        GoesOn(link, Events(history), arrival.event);
        SnocHandled(history, h);
        ConsumesNext(history, h, old(wsInbox), old(udpInbox), old@turn(wsInbox), old@turn(udpInbox));
        // Handling takes its time before the timers start again.
        var taking: nat :| true;
        clock := clock + taking;
        TimelyNext(history, h, old(clock), old@turn(clock), clock);
        history := history + [h];
      }
      WentMeansEndedAt(link, Events(history), outcome);
      if forall c :: c in Chunks(Events(history)) ==> |c| <= MAX_UDP_PAYLOAD {
        UdpConserves(link, Events(history), outcome, false, udpOut, wsOut);
      }
    }
  }
}
