/**
 The pool session: the handshake captures pushes that arrive among its replies, the reader thread turns bytes
 into newline-delimited frames across idle timeouts, and both feed `dispatch_frame`. JSON decoding is an
 arbitrary function from a line to what its three consumers can see of it.
 */
module Session {
  import opened Words
  import opened Binary64
  import opened Text
  import opened Mapping
  import opened MiningLoop

  datatype SubscribeResult = SubscribeResult(extranonce1Hex: string, extranonce2Size: nat)

  /** The `id` member: absent or null, a u64, or something a response cannot carry. */
  datatype Id = NoId | Num(n: nat) | BadId

  /** What `method` and `params` amount to; `Other` is any method we do not act on, or one with bad params. */
  datatype Push = NoMethod | Notify(notify: NotifyParams) | SetDifficulty(difficulty: F64) | Other

  /** What `result` and `error` amount to. */
  datatype Reply = Reply(isError: bool, subscribed: Option<SubscribeResult>, isTrue: bool, isStale: bool)

  datatype Frame = Junk | Message(id: Id, push: Push, reply: Reply)

  type Parser = string -> Frame

  function FrameOf(parse: Parser, line: string): Frame {
    if Trim(line) == "" then Junk else parse(Trim(line))
  }

  // ---------- What frames publish ----------

  /** What the mining thread sees of the session. */
  datatype Published = Published(job: Option<StratumJob>, difficulty: F64, extranonce1Hex: string)

  /** What a push does to it; any other message does nothing. */
  function Act(p: Published, push: Push): Published {
    match push
    case Notify(n) => p.(job := Some(StratumJob(n, p.extranonce1Hex)))
    case SetDifficulty(d) => p.(difficulty := d)
    case _ => p
  }

  /** `dispatch_frame`, whatever the frame's id. */
  function Dispatch(parse: Parser, p: Published, line: string): Published {
    match FrameOf(parse, line)
    case Message(_, push, _) => Act(p, push)
    case Junk => p
  }

  /** The frames dispatched in order. */
  function Fold(parse: Parser, p: Published, lines: seq<string>): Published {
    if lines == [] then p else Dispatch(parse, Fold(parse, p, lines[..|lines| - 1]), lines[|lines| - 1])
  }

  lemma {:induction false} FoldAppend(parse: Parser, p: Published, a: seq<string>, b: seq<string>)
    ensures Fold(parse, p, a + b) == Fold(parse, Fold(parse, p, a), b)
  {
    hide Dispatch;
    if b == [] {
      assert a + b == a;
    } else {
      FoldAppend(parse, p, a, b[..|b| - 1]);
      assert (a + b)[..|a + b| - 1] == a + b[..|b| - 1];
    }
  }

  lemma FoldOne(parse: Parser, p: Published, a: seq<string>, line: string)
    ensures Fold(parse, p, a + [line]) == Dispatch(parse, Fold(parse, p, a), line)
  {
    assert (a + [line])[..|a|] == a;
  }

  lemma DispatchTrimmed(parse: Parser, p: Published, line: string)
    ensures FrameOf(parse, Trim(line)) == FrameOf(parse, line)
    ensures Dispatch(parse, p, Trim(line)) == Dispatch(parse, p, line)
  {
    hide Trim;
    TrimTwice(line);
  }

  lemma AckPublishesNothing(parse: Parser, p: Published, line: string)
    requires IsAck(FrameOf(parse, line))
    ensures Dispatch(parse, p, line) == p
  {
    hide FrameOf;
  }

  /** A submit ack: a response, not a push, whose id is one `send_submit` hands out. */
  predicate IsAck(f: Frame) {
    f.Message? && f.push.NoMethod? && f.id.Num? && f.id.n >= 100
  }

  /** Acks are told from the handshake's replies and from pushes: a response with no method, its id from 100 up. */
  lemma AckIff(f: Frame)
    ensures IsAck(f) <==> exists n: nat, reply: Reply :: n >= 100 && f == Message(Num(n), NoMethod, reply)
    ensures IsAck(f) ==> !IsReply(f) && !IsPush(f)
  {
    if IsAck(f) {
      assert f == Message(Num(f.id.n), NoMethod, f.reply);
    }
  }

  // ---------- The handshake ----------

  datatype HelloError = Closed | SubscribeFailed | BadSubscribeResult | AuthorizeRejected | NotAuthorized

  datatype Hello = Hello(subscribed: Option<SubscribeResult>, authorized: Option<bool>, early: seq<string>)

  predicate Complete(h: Hello) {
    h.subscribed.Some? && h.authorized.Some?
  }

  /** A response to one of the two handshake calls. */
  predicate IsReply(f: Frame) {
    f.Message? && f.id in {Num(1), Num(2)}
  }

  /** One line of the handshake loop. */
  function HelloStep(parse: Parser, h: Hello, line: string): Result<Hello, HelloError> {
    var t := Trim(line);
    if t == "" then Ok(h)
    else match parse(t)
      case Message(Num(1), _, reply) =>
        if reply.isError then Err(SubscribeFailed)
        else if reply.subscribed.None? then Err(BadSubscribeResult)
        else Ok(h.(subscribed := reply.subscribed))
      case Message(Num(2), _, reply) =>
        if reply.isError then Err(AuthorizeRejected) else Ok(h.(authorized := Some(reply.isTrue)))
      case _ => Ok(h.(early := h.early + [t]))
  }

  function HelloRun(parse: Parser, lines: seq<string>): Result<Hello, HelloError> {
    if lines == [] then Ok(Hello(None, None, []))
    else match HelloRun(parse, lines[..|lines| - 1])
      case Err(e) => Err(e)
      case Ok(h) => HelloStep(parse, h, lines[|lines| - 1])
  }

  // ---------- The handshake's verdict ----------

  /** A reply that ends the handshake at once: an error, or a subscribe result that does not parse. */
  function Fatal(f: Frame): Option<HelloError> {
    match f
    case Message(Num(1), _, reply) =>
      if reply.isError then Some(SubscribeFailed) else if reply.subscribed.None? then Some(BadSubscribeResult) else None
    case Message(Num(2), _, reply) => if reply.isError then Some(AuthorizeRejected) else None
    case _ => None
  }

  /** What each line says of the subscription, if it answers that call. */
  function Subscriptions(parse: Parser, lines: seq<string>): (r: seq<Option<Option<SubscribeResult>>>)
    ensures |r| == |lines|
  {
    seq(|lines|, i requires 0 <= i < |lines| =>
      match FrameOf(parse, lines[i]) case Message(Num(1), _, reply) => Some(reply.subscribed) case _ => None)
  }

  function Authorizations(parse: Parser, lines: seq<string>): (r: seq<Option<Option<bool>>>)
    ensures |r| == |lines|
  {
    seq(|lines|, i requires 0 <= i < |lines| =>
      match FrameOf(parse, lines[i]) case Message(Num(2), _, reply) => Some(Some(reply.isTrue)) case _ => None)
  }

  /** What the handshake has learned from these lines: the last answer to each call. */
  ghost predicate Learned(parse: Parser, lines: seq<string>, h: Hello) {
    && HoldsLast(Subscriptions(parse, lines), None, h.subscribed)
    && HoldsLast(Authorizations(parse, lines), None, h.authorized)
  }

  lemma LearnedNothing(parse: Parser)
    ensures Learned(parse, [], Hello(None, None, []))
  {
  }

  lemma LearnedOne(parse: Parser, lines: seq<string>, h: Hello)
    requires lines != [] && Learned(parse, lines[..|lines| - 1], h)
    ensures var f := FrameOf(parse, lines[|lines| - 1]);
            match HelloStep(parse, h, lines[|lines| - 1])
            case Err(e) => Fatal(f) == Some(e)
            case Ok(h') => Fatal(f) == None && Learned(parse, lines, h')
  {
    hide Trim, HoldsLast;
    var k := |lines| - 1;
    assert Subscriptions(parse, lines)[..k] == Subscriptions(parse, lines[..k]);
    assert Authorizations(parse, lines)[..k] == Authorizations(parse, lines[..k]);
    HoldsLastNext(Subscriptions(parse, lines), None, h.subscribed);
    HoldsLastNext(Authorizations(parse, lines), None, h.authorized);
  }

  /**
   The lines read fail the handshake exactly when one of them is fatal, with the first such error; otherwise it knows
   the last answer to each call.
   */
  lemma {:induction false} HelloVerdict(parse: Parser, lines: seq<string>)
    ensures HelloRun(parse, lines).Ok? <==> forall i :: 0 <= i < |lines| ==> Fatal(FrameOf(parse, lines[i])) == None
    ensures forall i :: 0 <= i < |lines| && Fatal(FrameOf(parse, lines[i])).Some?
                        && (forall k :: 0 <= k < i ==> Fatal(FrameOf(parse, lines[k])) == None) ==>
              HelloRun(parse, lines) == Err(Fatal(FrameOf(parse, lines[i])).value)
    ensures HelloRun(parse, lines).Ok? ==> Learned(parse, lines, HelloRun(parse, lines).value)
  {
    hide HelloStep, FrameOf, Fatal, Learned;
    if lines == [] {
      LearnedNothing(parse);
    } else {
      var k := |lines| - 1;
      var before := lines[..k];
      assert forall i :: 0 <= i < k ==> before[i] == lines[i];
      HelloVerdict(parse, before);
      if HelloRun(parse, before).Ok? {
        LearnedOne(parse, lines, HelloRun(parse, before).value);
      }
    }
  }

  /** The lines of a handshake that are not its replies. */
  function NonReplies(parse: Parser, lines: seq<string>): seq<string> {
    if lines == [] then []
    else if IsReply(FrameOf(parse, lines[|lines| - 1])) then NonReplies(parse, lines[..|lines| - 1])
    else NonReplies(parse, lines[..|lines| - 1]) + [lines[|lines| - 1]]
  }

  lemma BlankPublishesNothing(parse: Parser, p: Published, line: string)
    requires Trim(line) == ""
    ensures Dispatch(parse, p, line) == p
  {
  }

  /** Wherever the replies fall, replaying the captured pushes publishes what the other lines publish, in order. */
  lemma {:induction false} EarlyPushesReplay(parse: Parser, p: Published, lines: seq<string>)
    requires HelloRun(parse, lines).Ok?
    ensures Fold(parse, p, HelloRun(parse, lines).value.early) == Fold(parse, p, NonReplies(parse, lines))
  {
    hide Dispatch, Trim, Fold;
    if lines == [] {
      assert HelloRun(parse, lines).value.early == NonReplies(parse, lines);
    } else {
      var k := |lines| - 1;
      var early := HelloRun(parse, lines[..k]).value.early;
      EarlyPushesReplay(parse, p, lines[..k]);
      DispatchTrimmed(parse, p, lines[k]);
      DispatchTrimmed(parse, Fold(parse, p, early), lines[k]);
      FoldOne(parse, p, early, Trim(lines[k]));
      FoldOne(parse, p, NonReplies(parse, lines[..k]), lines[k]);
      if Trim(lines[k]) == "" {
        BlankPublishesNothing(parse, Fold(parse, p, early), lines[k]);
      }
    }
  }

  predicate IsPush(f: Frame) {
    f.Message? && (f.push.Notify? || f.push.SetDifficulty?)
  }

  /** No handshake reply doubles as a push. */
  ghost predicate RepliesCarryNoPush(parse: Parser, lines: seq<string>) {
    forall i :: 0 <= i < |lines| && IsReply(FrameOf(parse, lines[i])) ==> !IsPush(FrameOf(parse, lines[i]))
  }

  lemma {:induction false} RepliesPublishNothing(parse: Parser, p: Published, lines: seq<string>)
    requires RepliesCarryNoPush(parse, lines)
    ensures Fold(parse, p, NonReplies(parse, lines)) == Fold(parse, p, lines)
  {
    hide FrameOf;
    if lines != [] {
      var k := |lines| - 1;
      assert forall i :: 0 <= i < k ==> lines[..k][i] == lines[i];
      RepliesPublishNothing(parse, p, lines[..k]);
      FoldOne(parse, p, NonReplies(parse, lines[..k]), lines[k]);
    }
  }

  // ---------- Reads ----------

  /** The outcome of one `read_line`, with the bytes it appended to the line buffer. */
  datatype Read =
    | Got(text: string)       // Ok(n), n > 0: up to a newline, or to the end of the stream
    | TimedOut(text: string)  // an idle timeout, possibly inside a frame
    | Eof                     // Ok(0)
    | Failed(text: string)    // any other I/O error

  /** Reads of a live connection; only the very last one may end short of a newline. */
  ghost predicate LiveReads(received: seq<Read>) {
    forall i :: 0 <= i < |received| ==>
      match received[i]
      case Got(t) => t != "" && IsRead(t) && (i < |received| - 1 ==> EndsLine(t))
      case TimedOut(t) => IsRead(t) && !EndsLine(t)
      case _ => false
  }

  /** The bytes delivered so far. */
  function Delivered(received: seq<Read>): string {
    if received == [] then "" else Delivered(received[..|received| - 1]) + TextOf(received[|received| - 1])
  }

  /** What a read appended. */
  function TextOf(r: Read): string {
    match r
    case Got(t) => t
    case TimedOut(t) => t
    case _ => ""
  }

  function Texts(received: seq<Read>): (texts: seq<string>)
    ensures |texts| == |received|
  {
    if received == [] then [] else Texts(received[..|received| - 1]) + [TextOf(received[|received| - 1])]
  }

  /** The stream ended inside a frame: that frame is dispatched all the same. */
  predicate CutShort(received: seq<Read>) {
    received != [] && received[|received| - 1].Got? && !EndsLine(received[|received| - 1].text)
  }

  /** The frames of what was delivered. */
  function Frames(received: seq<Read>): seq<string> {
    CompleteLines(Delivered(received)) + if CutShort(received) then [Unfinished(Delivered(received))] else []
  }

  lemma NothingRead()
    ensures Frames([]) == [] && Unfinished("") == "" && Delivered([]) == ""
  {
  }

  /** One more read: a frame is the buffered text with what was read, a timeout only lengthens the buffer. */
  lemma NextRead(received: seq<Read>, i: nat)
    requires i < |received| && LiveReads(received)
    ensures !CutShort(received[..i]) && (received[i].Got? || received[i].TimedOut?)
    ensures received[i].Got? ==>
              Frames(received[..i + 1])
              == Frames(received[..i]) + [Unfinished(Delivered(received[..i])) + received[i].text]
    ensures received[i].Got? && EndsLine(received[i].text) ==> Unfinished(Delivered(received[..i + 1])) == ""
    ensures received[i].TimedOut? ==>
              && Frames(received[..i + 1]) == Frames(received[..i])
              && Unfinished(Delivered(received[..i + 1])) == Unfinished(Delivered(received[..i])) + received[i].text
  {
    hide CompleteLines, Unfinished;
    assert received[..i + 1][..i] == received[..i];
    ReadOn(Delivered(received[..i]), received[i].text);
  }

  lemma {:induction false} AllLines(received: seq<Read>)
    requires LiveReads(received) && forall i :: 0 <= i < |received| ==> received[i].Got?
    ensures Frames(received) == Texts(received)
    ensures !CutShort(received) ==> Unfinished(Delivered(received)) == ""
  {
    hide CompleteLines, Unfinished, Delivered, Frames;
    NothingRead();
    if received != [] {
      var k := |received| - 1;
      var before := received[..k];
      assert received[..k + 1] == received;
      assert forall i :: 0 <= i < k ==> before[i] == received[i];
      AllLines(before);
      NextRead(received, k);
      assert "" + received[k].text == received[k].text;
    }
  }

  /** Reads that are whole lines are frames of their own, and what follows them starts afresh. */
  lemma {:induction false} LinesThenReads(received: seq<Read>, used: nat)
    requires LiveReads(received) && used <= |received| && forall i :: 0 <= i < used ==> received[i].Got?
    ensures Frames(received) == Texts(received[..used]) + Frames(received[used..])
    ensures !CutShort(received) ==> Unfinished(Delivered(received)) == Unfinished(Delivered(received[used..]))
  {
    hide CompleteLines, Unfinished, Delivered, Frames, Texts;
    NothingRead();
    if used == |received| {
      assert received[used..] == [] && received[..used] == received;
      AllLines(received);
    } else {
      var k := |received| - 1;
      var before, tail := received[..k], received[used..];
      assert received[..k + 1] == received && forall i :: 0 <= i < k ==> before[i] == received[i];
      assert before[..used] == received[..used] && before[used..] == tail[..k - used] && tail[..k - used + 1] == tail;
      NextRead(received, k);
      LiveTail(received, used);
      NextRead(tail, k - used);
      LinesThenReads(before, used);
    }
  }

  lemma LiveTail(received: seq<Read>, used: nat)
    requires LiveReads(received) && used <= |received|
    ensures LiveReads(received[used..])
  {
    var tail := received[used..];
    assert forall i :: 0 <= i < |tail| ==> tail[i] == received[used + i];
  }

  // ---------- Connections ----------

  /** The handshake loop stops here: both replies are in, or one of them was fatal. */
  predicate Settled(r: Result<Hello, HelloError>) {
    r.Err? || Complete(r.value)
  }

  /** How many reads the handshake takes when `k` have not settled it; a timeout or the stream's end stops it too. */
  function HelloLength(parse: Parser, received: seq<Read>, k: nat): (used: nat)
    requires k <= |received|
    ensures k <= used <= |received|
    decreases |received| - k
  {
    if k == |received| || !received[k].Got? || Settled(HelloRun(parse, Texts(received[..k]))) then k
    else HelloLength(parse, received, k + 1)
  }

  lemma {:induction false} HelloReadsLines(parse: Parser, received: seq<Read>, k: nat)
    requires k <= |received|
    ensures forall i :: k <= i < HelloLength(parse, received, k) ==> received[i].Got?
    decreases |received| - k
  {
    hide HelloRun, Texts, Settled;
    if k < HelloLength(parse, received, k) {
      HelloReadsLines(parse, received, k + 1);
    }
  }

  /** The handshake's verdict once no more lines are read. */
  function Concluded(r: Result<Hello, HelloError>): (c: Result<Hello, HelloError>)
    ensures c.Ok? ==> c.value.subscribed.Some?
  {
    match r
    case Err(e) => Err(e)
    case Ok(h) =>
      if !Complete(h) then Err(Closed)
      else if h.authorized != Some(true) then Err(NotAuthorized)
      else Ok(h)
  }

  /** `handshake` over the reads of a fresh connection. */
  function HelloOutcome(parse: Parser, received: seq<Read>): (r: Result<Hello, HelloError>)
    ensures r.Ok? ==> r.value.subscribed.Some?
  {
    Concluded(HelloRun(parse, Texts(received[..HelloLength(parse, received, 0)])))
  }

  /** These lines leave the handshake waiting: none is fatal, and one of the two calls is unanswered. */
  ghost predicate StillWaiting(parse: Parser, lines: seq<string>) {
    && (forall i :: 0 <= i < |lines| ==> Fatal(FrameOf(parse, lines[i])) == None)
    && (HoldsLast(Subscriptions(parse, lines), None, None) || HoldsLast(Authorizations(parse, lines), None, None))
  }

  lemma WaitingIffUnsettled(parse: Parser, lines: seq<string>)
    ensures StillWaiting(parse, lines) <==> !Settled(HelloRun(parse, lines))
  {
    hide HelloRun, FrameOf, Fatal, HoldsLast, Subscriptions, Authorizations;
    HelloVerdict(parse, lines);
    if HelloRun(parse, lines).Ok? {
      var h := HelloRun(parse, lines).value;
      if HoldsLast(Subscriptions(parse, lines), None, None) {
        HoldsLastIsOne(Subscriptions(parse, lines), None, None, h.subscribed);
      }
      if HoldsLast(Authorizations(parse, lines), None, None) {
        HoldsLastIsOne(Authorizations(parse, lines), None, None, h.authorized);
      }
    }
  }

  /**
   The handshake reads exactly while it is waiting: it waits after every line but the last, and stops where it no
   longer waits or gets no line.
   */
  lemma {:induction false} HelloReadsWhileWaiting(parse: Parser, received: seq<Read>, k: nat)
    requires k <= |received|
    ensures var used := HelloLength(parse, received, k);
            && (forall i :: k <= i < used ==> StillWaiting(parse, Texts(received[..i])))
            && (used == |received| || !received[used].Got? || !StillWaiting(parse, Texts(received[..used])))
    decreases |received| - k
  {
    hide HelloRun, Texts, Settled, StillWaiting;
    WaitingIffUnsettled(parse, Texts(received[..k]));
    if k < |received| && received[k].Got? && !Settled(HelloRun(parse, Texts(received[..k]))) {
      HelloReadsWhileWaiting(parse, received, k + 1);
    }
  }

  lemma HelloStarts(parse: Parser, received: seq<Read>)
    ensures HelloRun(parse, Texts(received[..0])) == Ok(Hello(None, None, []))
  {
  }

  lemma HelloGoesOn(parse: Parser, received: seq<Read>, k: nat, h: Hello)
    requires k < |received| && received[k].Got? && HelloRun(parse, Texts(received[..k])) == Ok(h) && !Complete(h)
    ensures HelloLength(parse, received, k) == HelloLength(parse, received, k + 1)
    ensures HelloRun(parse, Texts(received[..k + 1])) == HelloStep(parse, h, received[k].text)
  {
    hide HelloStep, Texts;
    TextsNext(received, k);
  }

  lemma HelloStops(parse: Parser, received: seq<Read>, k: nat)
    requires k <= |received| && HelloLength(parse, received, 0) == HelloLength(parse, received, k)
    requires k == |received| || !received[k].Got? || Settled(HelloRun(parse, Texts(received[..k])))
    ensures HelloLength(parse, received, 0) == k
    ensures HelloOutcome(parse, received) == Concluded(HelloRun(parse, Texts(received[..k])))
  {
    hide HelloRun, Texts;
  }

  /**
   A handshake succeeds exactly when no reply among the lines it read is fatal, subscribe was answered, and the last
   answer to authorize is true.
   */
  lemma HandshakeOkIff(parse: Parser, received: seq<Read>)
    ensures var lines := Texts(received[..HelloLength(parse, received, 0)]);
            HelloOutcome(parse, received).Ok? <==>
              && (forall i :: 0 <= i < |lines| ==> Fatal(FrameOf(parse, lines[i])) == None)
              && (exists s :: HoldsLast(Subscriptions(parse, lines), None, Some(s)))
              && HoldsLast(Authorizations(parse, lines), None, Some(true))
  {
    hide HelloRun, HelloLength, Texts, FrameOf, Fatal, HoldsLast, Subscriptions, Authorizations;
    var lines := Texts(received[..HelloLength(parse, received, 0)]);
    HelloVerdict(parse, lines);
    if HelloRun(parse, lines).Ok? {
      var h := HelloRun(parse, lines).value;
      if HoldsLast(Authorizations(parse, lines), None, Some(true)) {
        HoldsLastIsOne(Authorizations(parse, lines), None, Some(true), h.authorized);
      }
      if s :| HoldsLast(Subscriptions(parse, lines), None, Some(s)) {
        HoldsLastIsOne(Subscriptions(parse, lines), None, Some(s), h.subscribed);
      }
      assert h.subscribed.Some? ==> HoldsLast(Subscriptions(parse, lines), None, Some(h.subscribed.value));
    }
  }

  /** What a connection publishes: its frames but the handshake's replies, folded under the new extranonce1. */
  function AfterConnection(parse: Parser, p: Published, received: seq<Read>): Published {
    match HelloOutcome(parse, received)
    case Err(_) => p
    case Ok(h) =>
      var used := HelloLength(parse, received, 0);
      Fold(parse, p.(extranonce1Hex := h.subscribed.value.extranonce1Hex),
           NonReplies(parse, Texts(received[..used])) + Frames(received[used..]))
  }

  /** The reads of a live connection, and the one that ended it: the end of the stream or any I/O error. */
  datatype Connection = Connection(received: seq<Read>, ending: Read)

  ghost predicate ValidConnection(c: Connection) {
    LiveReads(c.received) && (c.ending.Eof? || c.ending.Failed?)
  }

  /** However a connection ends, that read publishes nothing. */
  function AfterSession(parse: Parser, p: Published, conns: seq<Connection>): Published {
    if conns == [] then p
    else AfterConnection(parse, AfterSession(parse, p, conns[..|conns| - 1]), conns[|conns| - 1].received)
  }

  /**
   With ordinary replies an established connection publishes the fold of all its frames, first to last, wherever the
   handshake ends and however the bytes were split: no push is lost, reordered or applied twice.
   */
  lemma EveryFrameCounts(parse: Parser, p: Published, received: seq<Read>)
    requires LiveReads(received) && HelloOutcome(parse, received).Ok?
    requires RepliesCarryNoPush(parse, Texts(received[..HelloLength(parse, received, 0)]))
    ensures var xn1 := HelloOutcome(parse, received).value.subscribed.value.extranonce1Hex;
            AfterConnection(parse, p, received) == Fold(parse, p.(extranonce1Hex := xn1), Frames(received))
  {
    hide HelloRun, NonReplies, Frames, Fold, Texts, LiveReads;
    var used := HelloLength(parse, received, 0);
    var hello, rest := Texts(received[..used]), Frames(received[used..]);
    var q := p.(extranonce1Hex := HelloOutcome(parse, received).value.subscribed.value.extranonce1Hex);
    RepliesPublishNothing(parse, q, hello);
    FoldAppend(parse, q, NonReplies(parse, hello), rest);
    FoldAppend(parse, q, hello, rest);
    HelloReadsLines(parse, received, 0);
    LinesThenReads(received, used);
  }

  // ---------- What is lost, exactly ----------

  /** The jobs and difficulties these lines carry, in order. */
  function Pushes(parse: Parser, lines: seq<string>): seq<Push> {
    if lines == [] then []
    else
      var before, f := Pushes(parse, lines[..|lines| - 1]), FrameOf(parse, lines[|lines| - 1]);
      if IsPush(f) then before + [f.push] else before
  }

  function ActAll(p: Published, pushes: seq<Push>): Published {
    if pushes == [] then p else Act(ActAll(p, pushes[..|pushes| - 1]), pushes[|pushes| - 1])
  }

  /** The published state is that of the pushes and nothing else. */
  lemma {:induction false} FoldIsOfPushes(parse: Parser, p: Published, lines: seq<string>)
    ensures Fold(parse, p, lines) == ActAll(p, Pushes(parse, lines))
  {
    hide FrameOf;
    if lines != [] {
      FoldIsOfPushes(parse, p, lines[..|lines| - 1]);
    }
  }

  lemma PushesOne(parse: Parser, a: seq<string>, line: string)
    ensures var f := FrameOf(parse, line);
            Pushes(parse, a + [line]) == if IsPush(f) then Pushes(parse, a) + [f.push] else Pushes(parse, a)
  {
    assert (a + [line])[..|a|] == a;
  }

  lemma {:induction false} PushesAppend(parse: Parser, a: seq<string>, b: seq<string>)
    ensures Pushes(parse, a + b) == Pushes(parse, a) + Pushes(parse, b)
  {
    hide FrameOf;
    if b == [] {
      assert a + b == a;
    } else {
      PushesAppend(parse, a, b[..|b| - 1]);
      assert (a + b)[..|a + b| - 1] == a + b[..|b| - 1];
    }
  }

  lemma BlankIsJunk(parse: Parser, line: string)
    requires Trim(line) == ""
    ensures FrameOf(parse, line) == Junk
  {
  }

  /** The captured early pushes are the handshake's lines but its replies, push for push. */
  lemma {:induction false} EarlyPushesAreKept(parse: Parser, lines: seq<string>)
    requires HelloRun(parse, lines).Ok?
    ensures Pushes(parse, HelloRun(parse, lines).value.early) == Pushes(parse, NonReplies(parse, lines))
  {
    hide Trim, Pushes;
    if lines == [] {
      assert HelloRun(parse, lines).value.early == NonReplies(parse, lines);
    } else {
      var k := |lines| - 1;
      var early := HelloRun(parse, lines[..k]).value.early;
      EarlyPushesAreKept(parse, lines[..k]);
      TrimTwice(lines[k]);
      PushesOne(parse, early, Trim(lines[k]));
      PushesOne(parse, NonReplies(parse, lines[..k]), lines[k]);
      if Trim(lines[k]) == "" {
        BlankIsJunk(parse, lines[k]);
      }
    }
  }

  /** Setting the replies aside keeps every push if no reply carries one; otherwise some are missing. */
  lemma {:induction false} RepliesKeepPushesIff(parse: Parser, lines: seq<string>)
    ensures RepliesCarryNoPush(parse, lines) ==> Pushes(parse, NonReplies(parse, lines)) == Pushes(parse, lines)
    ensures !RepliesCarryNoPush(parse, lines) ==> |Pushes(parse, NonReplies(parse, lines))| < |Pushes(parse, lines)|
  {
    hide FrameOf, IsReply;
    if lines != [] {
      var k := |lines| - 1;
      var before := lines[..k];
      RepliesKeepPushesIff(parse, before);
      PushesOne(parse, NonReplies(parse, before), lines[k]);
      PushesOne(parse, before, lines[k]);
      assert before + [lines[k]] == lines;
      CarryNoPushNext(parse, lines);
      hide RepliesCarryNoPush, Pushes;
    }
  }

  lemma CarryNoPushNext(parse: Parser, lines: seq<string>)
    requires lines != []
    ensures var f := FrameOf(parse, lines[|lines| - 1]);
            RepliesCarryNoPush(parse, lines) <==>
              RepliesCarryNoPush(parse, lines[..|lines| - 1]) && !(IsReply(f) && IsPush(f))
  {
    hide FrameOf;
    var k := |lines| - 1;
    assert forall i :: 0 <= i < k ==> lines[..k][i] == lines[i];
  }

  /** The pushes an established connection dispatches: the captured ones, then the reader's. */
  function Dispatched(parse: Parser, received: seq<Read>): seq<Push>
    requires HelloOutcome(parse, received).Ok?
  {
    Pushes(parse, HelloOutcome(parse, received).value.early)
    + Pushes(parse, Frames(received[HelloLength(parse, received, 0)..]))
  }

  /**
   No push is lost: an established connection dispatches exactly the pushes of its byte stream, in order, if and only
   if no reply of its handshake carries one; otherwise it dispatches fewer.
   */
  lemma NoPushIsLostIff(parse: Parser, received: seq<Read>)
    requires LiveReads(received) && HelloOutcome(parse, received).Ok?
    ensures var ordinary := RepliesCarryNoPush(parse, Texts(received[..HelloLength(parse, received, 0)]));
            && (Dispatched(parse, received) == Pushes(parse, Frames(received)) <==> ordinary)
            && (!ordinary ==> |Dispatched(parse, received)| < |Pushes(parse, Frames(received))|)
  {
    hide HelloRun, NonReplies, Frames, Pushes, Texts, LiveReads, RepliesCarryNoPush;
    var used := HelloLength(parse, received, 0);
    var hello, rest := Texts(received[..used]), Frames(received[used..]);
    HelloReadsLines(parse, received, 0);
    LinesThenReads(received, used);
    PushesAppend(parse, hello, rest);
    EarlyPushesAreKept(parse, hello);
    RepliesKeepPushesIff(parse, hello);
  }

  /** What it publishes is what those pushes do. */
  lemma PublishesTheDispatched(parse: Parser, p: Published, received: seq<Read>)
    requires HelloOutcome(parse, received).Ok?
    ensures var xn1 := HelloOutcome(parse, received).value.subscribed.value.extranonce1Hex;
            AfterConnection(parse, p, received) == ActAll(p.(extranonce1Hex := xn1), Dispatched(parse, received))
  {
    hide HelloRun, NonReplies, Frames, Pushes, Texts, Fold, ActAll;
    var used := HelloLength(parse, received, 0);
    var hello, rest := Texts(received[..used]), Frames(received[used..]);
    var q := p.(extranonce1Hex := HelloOutcome(parse, received).value.subscribed.value.extranonce1Hex);
    FoldIsOfPushes(parse, q, NonReplies(parse, hello) + rest);
    PushesAppend(parse, NonReplies(parse, hello), rest);
    EarlyPushesAreKept(parse, hello);
  }

  // ---------- What the pushes do ----------

  function PushOf(parse: Parser, line: string): Push {
    match FrameOf(parse, line)
    case Message(_, push, _) => push
    case Junk => NoMethod
  }

  function PushesOf(parse: Parser, lines: seq<string>): (pushes: seq<Push>)
    ensures |pushes| == |lines|
  {
    seq(|lines|, i requires 0 <= i < |lines| => PushOf(parse, lines[i]))
  }

  /** The difficulties these pushes set. */
  function Difficulties(pushes: seq<Push>): (r: seq<Option<F64>>)
    ensures |r| == |pushes|
  {
    seq(|pushes|, i requires 0 <= i < |pushes| =>
      if pushes[i].SetDifficulty? then Some(pushes[i].difficulty) else None)
  }

  /** The jobs they notify, under one extranonce1. */
  function Jobs(pushes: seq<Push>, xn1: string): (r: seq<Option<Option<StratumJob>>>)
    ensures |r| == |pushes|
  {
    seq(|pushes|, i requires 0 <= i < |pushes| =>
      if pushes[i].Notify? then Some(Some(StratumJob(pushes[i].notify, xn1))) else None)
  }

  /**
   The last difficulty is in force and the last notify is the job, under the extranonce1 of `p`; what no push sets
   stays as it was.
   */
  ghost predicate LastOnesHold(p: Published, pushes: seq<Push>, after: Published) {
    && after.extranonce1Hex == p.extranonce1Hex
    && HoldsLast(Difficulties(pushes), p.difficulty, after.difficulty)
    && HoldsLast(Jobs(pushes, p.extranonce1Hex), p.job, after.job)
  }

  lemma NothingHolds(p: Published)
    ensures LastOnesHold(p, [], p)
  {
  }

  lemma OneMoreHolds(p: Published, pushes: seq<Push>, before: Published)
    requires pushes != [] && LastOnesHold(p, pushes[..|pushes| - 1], before)
    ensures LastOnesHold(p, pushes, Act(before, pushes[|pushes| - 1]))
  {
    hide HoldsLast;
    var k := |pushes| - 1;
    var xn1 := p.extranonce1Hex;
    assert Difficulties(pushes)[..k] == Difficulties(pushes[..k]);
    assert Jobs(pushes, xn1)[..k] == Jobs(pushes[..k], xn1);
    HoldsLastNext(Difficulties(pushes), p.difficulty, before.difficulty);
    HoldsLastNext(Jobs(pushes, xn1), p.job, before.job);
  }

  lemma {:induction false} FoldHoldsTheLast(parse: Parser, p: Published, lines: seq<string>)
    ensures LastOnesHold(p, PushesOf(parse, lines), Fold(parse, p, lines))
  {
    hide FrameOf, Act, LastOnesHold;
    NothingHolds(p);
    if lines == [] {
      assert PushesOf(parse, lines) == [];
    } else {
      var k := |lines| - 1;
      var before := Fold(parse, p, lines[..k]);
      FoldHoldsTheLast(parse, p, lines[..k]);
      assert PushesOf(parse, lines)[..k] == PushesOf(parse, lines[..k]);
      OneMoreHolds(p, PushesOf(parse, lines), before);
      DispatchActs(parse, before, lines[k]);
    }
  }

  lemma DispatchActs(parse: Parser, p: Published, line: string)
    ensures Dispatch(parse, p, line) == Act(p, PushOf(parse, line))
  {
    hide FrameOf;
  }

  lemma {:induction false} ActionHoldsTheLast(p: Published, pushes: seq<Push>)
    ensures LastOnesHold(p, pushes, ActAll(p, pushes))
  {
    hide Act, LastOnesHold;
    NothingHolds(p);
    if pushes != [] {
      ActionHoldsTheLast(p, pushes[..|pushes| - 1]);
      OneMoreHolds(p, pushes, ActAll(p, pushes[..|pushes| - 1]));
    }
  }

  /**
   After an established connection the difficulty is the last one its byte stream sets and the job is its last notify,
   under the session's extranonce1, if its replies are ordinary; in any case they are the last ones dispatched.
   */
  lemma ConnectionLeavesTheLast(parse: Parser, p: Published, received: seq<Read>)
    requires LiveReads(received) && HelloOutcome(parse, received).Ok?
    ensures var xn1 := HelloOutcome(parse, received).value.subscribed.value.extranonce1Hex;
            var after := AfterConnection(parse, p, received);
            && LastOnesHold(p.(extranonce1Hex := xn1), Dispatched(parse, received), after)
            && (RepliesCarryNoPush(parse, Texts(received[..HelloLength(parse, received, 0)])) ==>
                  LastOnesHold(p.(extranonce1Hex := xn1), PushesOf(parse, Frames(received)), after))
  {
    hide HelloRun, HelloLength, HelloOutcome, NonReplies, Frames, Pushes, Texts, Fold, ActAll, LastOnesHold, LiveReads,
         RepliesCarryNoPush, PushesOf, AfterConnection, Dispatched;
    var xn1 := HelloOutcome(parse, received).value.subscribed.value.extranonce1Hex;
    PublishesTheDispatched(parse, p, received);
    ActionHoldsTheLast(p.(extranonce1Hex := xn1), Dispatched(parse, received));
    if RepliesCarryNoPush(parse, Texts(received[..HelloLength(parse, received, 0)])) {
      EveryFrameCounts(parse, p, received);
      FoldHoldsTheLast(parse, p.(extranonce1Hex := xn1), Frames(received));
    }
  }

  /** One line of the handshake that is both a reply and a push is enough to lose a push. */
  lemma PushWithReplyIdIsLost(parse: Parser, received: seq<Read>, i: nat)
    requires LiveReads(received) && HelloOutcome(parse, received).Ok? && i < HelloLength(parse, received, 0)
    requires var f := FrameOf(parse, TextOf(received[i])); IsReply(f) && IsPush(f)
    ensures |Dispatched(parse, received)| < |Pushes(parse, Frames(received))|
  {
    hide FrameOf, Frames, Pushes, HelloRun, LiveReads;
    TextAt(received[..HelloLength(parse, received, 0)], i);
    NoPushIsLostIff(parse, received);
  }

  /** A handshake of two lines: the subscribe reply, whatever else it carries, then the authorize reply. */
  lemma HelloOfTwo(parse: Parser, received: seq<Read>, subscribed: SubscribeResult, push: Push)
    requires |received| == 2 && received[0].Got? && received[1].Got?
    requires FrameOf(parse, received[0].text) == Message(Num(1), push, Reply(false, Some(subscribed), false, false))
    requires FrameOf(parse, received[1].text) == Message(Num(2), NoMethod, Reply(false, None, true, false))
    ensures HelloLength(parse, received, 0) == 2
    ensures HelloOutcome(parse, received) == Ok(Hello(Some(subscribed), Some(true), []))
  {
    hide Trim;
    TwoReads(received);
    var lines := Texts(received);
    assert lines[..1] == Texts(received[..1]);
    assert HelloRun(parse, Texts(received[..1])) == Ok(Hello(Some(subscribed), None, []));
    assert HelloRun(parse, lines) == Ok(Hello(Some(subscribed), Some(true), []));
    assert HelloLength(parse, received, 2) == 2;
    assert HelloLength(parse, received, 1) == 2;
  }

  /** It happens: the subscribe reply of this handshake sets a difficulty, which is never dispatched. */
  lemma HandshakeLosesAPush(d: F64) returns (parse: Parser, received: seq<Read>)
    ensures LiveReads(received) && HelloOutcome(parse, received).Ok?
    ensures Dispatched(parse, received) == [] && Pushes(parse, Frames(received)) == [SetDifficulty(d)]
  {
    hide FrameOf, Frames, HelloRun, HelloLength, HelloOutcome, Texts, Pushes, DoubleReply;
    parse, received := DoubleReply(d), [Got("a\n"), Got("b\n")];
    DoubleReplyFrames(d);
    HelloOfTwo(parse, received, SubscribeResult("00000000", 4), SetDifficulty(d));
    AllLines(received);
    TwoReads(received);
    NothingRead();
    assert received[2..] == [];
    PushesOfTwo(parse, "a\n", "b\n");
  }

  /** A pool whose subscribe reply also sets a difficulty. */
  function DoubleReply(d: F64): Parser {
    line =>
      if line == "a" then
        Message(Num(1), SetDifficulty(d), Reply(false, Some(SubscribeResult("00000000", 4)), false, false))
      else if line == "b" then Message(Num(2), NoMethod, Reply(false, None, true, false))
      else Junk
  }

  lemma DoubleReplyFrames(d: F64)
    ensures FrameOf(DoubleReply(d), "a\n")
            == Message(Num(1), SetDifficulty(d), Reply(false, Some(SubscribeResult("00000000", 4)), false, false))
    ensures FrameOf(DoubleReply(d), "b\n") == Message(Num(2), NoMethod, Reply(false, None, true, false))
  {
    hide Trim;
    TrimLetters();
  }

  lemma PushesOfTwo(parse: Parser, a: string, b: string)
    requires IsPush(FrameOf(parse, a)) && !IsPush(FrameOf(parse, b))
    ensures Pushes(parse, []) == [] && Pushes(parse, [a, b]) == [FrameOf(parse, a).push]
  {
    hide FrameOf, IsPush;
    PushesOne(parse, [], a);
    PushesOne(parse, [a], b);
    assert [] + [a] == [a] && [a] + [b] == [a, b];
  }

  lemma TrimLetters()
    ensures Trim("a\n") == "a" && Trim("b\n") == "b"
  {
    hide Trim;
    TrimOneAfter("a", '\n');
    TrimOneAfter("b", '\n');
    assert "a" + ['\n'] == "a\n" && "b" + ['\n'] == "b\n";
  }

  lemma TwoReads(received: seq<Read>)
    requires |received| == 2
    ensures Texts(received[..0]) == [] && Texts(received[..1]) == [TextOf(received[0])]
    ensures Texts(received[..2]) == Texts(received) == [TextOf(received[0]), TextOf(received[1])]
  {
    assert received[..2] == received && received[..1][..0] == [];
    assert Texts(received[..1]) == Texts([]) + [TextOf(received[0])];
  }

  lemma {:induction false} TextAt(received: seq<Read>, i: nat)
    requires i < |received|
    ensures Texts(received)[i] == TextOf(received[i])
  {
    if i < |received| - 1 {
      TextAt(received[..|received| - 1], i);
    }
  }

  // ---------- The shared state ----------

  predicate PrevChanged(before: Option<StratumJob>, after: Option<StratumJob>) {
    after.Some? && (before.None? || before.value.notify.prevHashBeHex != after.value.notify.prevHashBeHex)
  }

  predicate IdChanged(before: Option<StratumJob>, after: Option<StratumJob>) {
    after.Some? && (before.None? || before.value.notify.jobId != after.value.notify.jobId)
  }

  function Count(hit: bool): nat {
    if hit then 1 else 0
  }

  /** `Shared` and the reader thread's line buffer. */
  class Client {
    var latestJob: Option<StratumJob>
    var difficulty: F64
    var extranonce1Hex: string
    var newJob: bool
    var lastNewJobMs: nat
    var accepted: nat
    var rejected: nat
    var stale: nat
    var consecutiveUnacked: nat
    var lastAcceptMs: nat
    var line: string

    constructor ()
      ensures View() == Published(None, Finite(1.0), "") && line == "" && !newJob
    {
      latestJob, difficulty, extranonce1Hex, newJob, lastNewJobMs := None, Finite(1.0), "", false, 0;
      accepted, rejected, stale, consecutiveUnacked, lastAcceptMs := 0, 0, 0, 0, 0;
      line := "";
    }

    ghost function View(): Published
      reads this
    {
      Published(latestJob, difficulty, extranonce1Hex)
    }

    /**
     `dispatch_frame`. The preemption flag rises exactly on a changed prev; the staleness clock moves exactly on a
     changed job id.
     */
    method DispatchFrame(parse: Parser, frame: string, now: nat)
      modifies `latestJob, `difficulty, `newJob, `lastNewJobMs
      ensures View() == Dispatch(parse, old(View()), frame)
      ensures newJob == (old(newJob) || PrevChanged(old(latestJob), latestJob))
      ensures lastNewJobMs == if IdChanged(old(latestJob), latestJob) then now else old(lastNewJobMs)
      ensures match FrameOf(parse, frame)
              case Message(_, Notify(n), _) =>
                && latestJob == Some(StratumJob(n, extranonce1Hex)) && unchanged(`difficulty)
                && (newJob <==> old(newJob) || old(latestJob).None?
                                || old(latestJob).value.notify.prevHashBeHex != n.prevHashBeHex)
                && lastNewJobMs == (if old(latestJob).Some? && old(latestJob).value.notify.jobId == n.jobId
                                    then old(lastNewJobMs) else now)
              case Message(_, SetDifficulty(d), _) => difficulty == d && unchanged(`latestJob)
              case _ => unchanged(`latestJob) && unchanged(`difficulty)
    {
      match FrameOf(parse, frame) {
        case Message(_, Notify(notify), _) =>
          var changed := latestJob.None? || latestJob.value.notify.jobId != notify.jobId;
          var prevChanged := latestJob.None? || latestJob.value.notify.prevHashBeHex != notify.prevHashBeHex;
          latestJob := Some(StratumJob(notify, extranonce1Hex));
          if changed {
            lastNewJobMs := now;
          }
          if prevChanged {
            newJob := true;
          }
        case Message(_, SetDifficulty(d), _) =>
          difficulty := d;
        case _ =>
      }
    }

    /** `record_ack`: an ack is counted once, by kind, and any ack ends the unacked streak. */
    method RecordAck(parse: Parser, frame: string, now: nat) returns (acked: bool)
      modifies `accepted, `rejected, `stale, `consecutiveUnacked, `lastAcceptMs
      ensures acked == IsAck(FrameOf(parse, frame))
      ensures accepted + rejected + stale == old(accepted + rejected + stale) + Count(acked)
      ensures accepted == old(accepted) + Count(acked && FrameOf(parse, frame).reply.isTrue)
      ensures stale == old(stale)
                       + Count(acked && !FrameOf(parse, frame).reply.isTrue && FrameOf(parse, frame).reply.isStale)
      ensures consecutiveUnacked == if acked then 0 else old(consecutiveUnacked)
      ensures lastAcceptMs == if accepted > old(accepted) then now else old(lastAcceptMs)
    {
      var f := FrameOf(parse, frame);
      if !IsAck(f) {
        return false;
      }
      consecutiveUnacked := 0;
      if f.reply.isTrue {
        accepted := accepted + 1;
        lastAcceptMs := now;
      } else if f.reply.isStale {
        stale := stale + 1;
      } else {
        rejected := rejected + 1;
      }
      return true;
    }

    /** One turn of the reader loop. A timeout keeps what it read; only a frame or a dead link clears the buffer. */
    method OnRead(parse: Parser, read: Read, now: nat) returns (reconnect: bool)
      modifies this
      ensures reconnect == (read.Eof? || read.Failed?)
      ensures read.Got? ==> View() == Dispatch(parse, old(View()), old(line) + read.text) && line == ""
      ensures read.TimedOut? ==> View() == old(View()) && line == old(line) + read.text
      ensures reconnect ==> View() == old(View()) && line == ""
    {
      hide Dispatch, FrameOf, Trim, IsAck;
      match read {
        case Got(text) =>
          line := line + text;
          var frame := Trim(line);
          DispatchTrimmed(parse, View(), line);
          var acked := RecordAck(parse, frame, now);
          if !acked {
            DispatchFrame(parse, frame, now);
          } else {
            AckPublishesNothing(parse, View(), frame);
          }
          line := "";
          return false;
        case TimedOut(text) =>
          line := line + text;
          return false;
        case Eof =>
          line := "";
          return true;
        case Failed(text) =>
          line := line + text;
          line := "";
          return true;
      }
    }

    /** However timeouts split the bytes, the reads of a connection publish the fold of its frames. */
    method Serve(parse: Parser, received: seq<Read>, now: nat)
      requires line == "" && LiveReads(received)
      modifies this
      ensures View() == Fold(parse, old(View()), Frames(received))
      ensures line == if CutShort(received) then "" else Unfinished(Delivered(received))
    {
      hide Dispatch, CompleteLines, Unfinished, Frames, Delivered, LiveReads, FrameOf, Trim;
      NothingRead();
      for i := 0 to |received|
        invariant View() == Fold(parse, old(View()), Frames(received[..i]))
        invariant line == if CutShort(received[..i]) then "" else Unfinished(Delivered(received[..i]))
      {
        NextRead(received, i);
        FoldOne(parse, old(View()), Frames(received[..i]), line + TextOf(received[i]));
        var _ := OnRead(parse, received[i], now);
      }
      assert received[..|received|] == received;
    }

    /** `handshake`: read lines until both replies are in; anything but a line is an error. */
    method Handshake(parse: Parser, received: seq<Read>) returns (r: Result<Hello, HelloError>, used: nat)
      ensures used == HelloLength(parse, received, 0) && r == HelloOutcome(parse, received)
    {
      hide HelloStep, HelloRun, HelloLength, HelloOutcome, Texts;
      var h := Hello(None, None, []);
      used := 0;
      HelloStarts(parse, received);
      while h.subscribed.None? || h.authorized.None?
        invariant used <= |received| && HelloLength(parse, received, 0) == HelloLength(parse, received, used)
        invariant HelloRun(parse, Texts(received[..used])) == Ok(h)
        decreases |received| - used
      {
        if used == |received| || !received[used].Got? {
          HelloStops(parse, received, used);
          return Err(Closed), used;
        }
        HelloGoesOn(parse, received, used, h);
        var step := HelloStep(parse, h, received[used].text);
        used := used + 1;
        if step.Err? {
          HelloStops(parse, received, used);
          return Err(step.error), used;
        }
        h := step.value;
      }
      HelloStops(parse, received, used);
      if h.authorized != Some(true) {
        return Err(NotAuthorized), used;
      }
      return Ok(h), used;
    }

    /** Dial: on success take the new session's extranonce1, then replay the captured pushes. */
    method Open(parse: Parser, received: seq<Read>, now: nat) returns (ok: bool, used: nat)
      modifies this
      ensures ok == HelloOutcome(parse, received).Ok? && used == HelloLength(parse, received, 0)
      ensures ok ==>
                var xn1 := HelloOutcome(parse, received).value.subscribed.value.extranonce1Hex;
                View() == Fold(parse, old(View()).(extranonce1Hex := xn1), NonReplies(parse, Texts(received[..used])))
      ensures !ok ==> View() == old(View())
      ensures line == old(line)
    {
      hide HelloStep, HelloRun, HelloLength, Dispatch, NonReplies, Texts, Fold;
      var r;
      r, used := Handshake(parse, received);
      if r.Err? {
        return false, used;
      }
      extranonce1Hex := r.value.subscribed.value.extranonce1Hex;
      ghost var start := View();
      Replay(parse, r.value.early, now);
      EarlyPushesReplay(parse, start, Texts(received[..used]));
      return true, used;
    }

    /** Dispatch the captured pushes in order. */
    method Replay(parse: Parser, early: seq<string>, now: nat)
      modifies this
      ensures View() == Fold(parse, old(View()), early) && line == old(line)
    {
      hide Dispatch;
      for i := 0 to |early|
        invariant View() == Fold(parse, old(View()), early[..i]) && line == old(line)
      {
        assert early[..i + 1][..i] == early[..i];
        DispatchFrame(parse, early[i], now);
      }
      assert early[..|early|] == early;
    }

    /** The reader thread over any number of connections; a failed dial publishes nothing. */
    method Run(parse: Parser, conns: seq<Connection>, now: nat)
      requires line == "" && forall i :: 0 <= i < |conns| ==> ValidConnection(conns[i])
      modifies this
      ensures View() == AfterSession(parse, old(View()), conns)
    {
      hide HelloRun, HelloOutcome, HelloLength, Fold, NonReplies, Frames, Texts, LiveReads;
      for i := 0 to |conns|
        invariant line == "" && View() == AfterSession(parse, old(View()), conns[..i])
      {
        assert conns[..i + 1][..i] == conns[..i];
        var received := conns[i].received;
        ghost var before := View();
        var ok, used := Open(parse, received, now);
        if ok {
          LiveTail(received, used);
          Serve(parse, received[used..], now);
          ghost var xn1 := HelloOutcome(parse, received).value.subscribed.value.extranonce1Hex;
          FoldAppend(parse, before.(extranonce1Hex := xn1), NonReplies(parse, Texts(received[..used])),
                     Frames(received[used..]));
          var _ := OnRead(parse, conns[i].ending, now);
        }
      }
      assert conns[..|conns|] == conns;
    }
  }

  lemma TextsNext(received: seq<Read>, i: nat)
    requires i < |received|
    ensures Texts(received[..i + 1]) == Texts(received[..i]) + [TextOf(received[i])]
    ensures Texts(received[..i + 1])[..i] == Texts(received[..i])
  {
    assert received[..i + 1][..i] == received[..i];
  }
}
