/** The history load protocol (group_commands.c, group_server_comms.c): a client's
    typing and receiving threads share one three-valued variable without a lock, and
    are interleaved here at every single read and write of it. */
module LoadProtocol {
  import opened Collections

  datatype LoadState = Idle | Requesting | Loading

  /** Where the typing thread is inside `user_grp_load_msg_send`. */
  datatype Typing =
    | AtPrompt
    | Entered    // about to compare with STATE_REQUESTING_LOAD
    | Passed     // about to compare with STATE_LOADING
    | Cleared    // about to set STATE_REQUESTING_LOAD
    | Marked     // about to send the request

  /** Where the receiving thread is inside the two load handlers. */
  datatype Receiving =
    | Waiting
    | LineArrived(line: string)   // about to compare with STATE_IDLE
    | LineAccepted(line: string)  // about to set STATE_LOADING and print
    | EndArrived                  // about to compare with STATE_REQUESTING_LOAD
    | EndPassed                   // about to compare with STATE_LOADING
    | EndAccepted                 // about to set STATE_IDLE

  datatype Up = LoadRequest | OtherRequest
  datatype Down = Line(line: string) | End | OtherPacket

  datatype Serving = NotServing | ServingLines(rest: seq<string>)

  /** One finished load: what was shown, and what the history held when it was served. */
  datatype Finished = Finished(shown: seq<string>, reply: seq<string>)

  /** `unexpected` counts lines met in the idle state, `ignored` end markers that
      changed nothing; `reply` is the history served last. */
  datatype Session = Session(
    state: LoadState,
    typing: Typing,
    receiving: Receiving,
    up: seq<Up>,
    down: seq<Down>,
    serving: Serving,
    shown: seq<string>,
    reply: seq<string>,
    finished: seq<Finished>,
    unexpected: nat,
    ignored: nat)

  const FRESH := Session(Idle, AtPrompt, Waiting, [], [], NotServing, [], [], [], 0, 0)

  datatype Action =
    | EnterLoad | CheckRequesting | CheckLoading | MarkRequesting | SendLoad | SendOther
    | ServeRequest(history: seq<string>) | ServeLine | ServeEnd | ServeOther
    | TakePacket | CheckLine | AcceptLine | CheckEndRequesting | CheckEndLoading | AcceptEnd

  predicate Enabled(s: Session, a: Action) {
    match a
    case EnterLoad => s.typing == AtPrompt
    case CheckRequesting => s.typing == Entered
    case CheckLoading => s.typing == Passed
    case MarkRequesting => s.typing == Cleared
    case SendLoad => s.typing == Marked
    case SendOther => s.typing == AtPrompt
    case ServeRequest(_) => s.up != [] && s.serving == NotServing
    case ServeLine => s.serving.ServingLines? && s.serving.rest != []
    case ServeEnd => s.serving == ServingLines([])
    case ServeOther => s.serving == NotServing
    case TakePacket => s.down != [] && s.receiving == Waiting
    case CheckLine => s.receiving.LineArrived?
    case AcceptLine => s.receiving.LineAccepted?
    case CheckEndRequesting => s.receiving == EndArrived
    case CheckEndLoading => s.receiving == EndPassed
    case AcceptEnd => s.receiving == EndAccepted
  }

  function Next(s: Session, a: Action): Session
    requires Enabled(s, a)
  {
    match a
    case EnterLoad => s.(typing := Entered)
    case CheckRequesting => s.(typing := if s.state == Requesting then AtPrompt else Passed)
    case CheckLoading => s.(typing := if s.state == Loading then AtPrompt else Cleared)
    case MarkRequesting => s.(state := Requesting, typing := Marked)
    case SendLoad => s.(up := s.up + [LoadRequest], typing := AtPrompt)
    case SendOther => s.(up := s.up + [OtherRequest])
    case ServeRequest(history) =>
      if s.up[0] == LoadRequest then s.(up := s.up[1..], serving := ServingLines(history), reply := history)
      else s.(up := s.up[1..])
    case ServeLine => s.(down := s.down + [Line(s.serving.rest[0])], serving := ServingLines(s.serving.rest[1..]))
    case ServeEnd => s.(down := s.down + [End], serving := NotServing)
    case ServeOther => s.(down := s.down + [OtherPacket])
    case TakePacket =>
      s.(down := s.down[1..],
         receiving := match s.down[0]
                      case Line(line) => LineArrived(line)
                      case End => EndArrived
                      case OtherPacket => Waiting)
    case CheckLine =>
      if s.state == Idle then s.(receiving := Waiting, unexpected := s.unexpected + 1)
      else s.(receiving := LineAccepted(s.receiving.line))
    case AcceptLine => s.(state := Loading, shown := s.shown + [s.receiving.line], receiving := Waiting)
    case CheckEndRequesting => s.(receiving := if s.state == Requesting then EndAccepted else EndPassed)
    case CheckEndLoading =>
      if s.state == Loading then s.(receiving := EndAccepted)
      else s.(receiving := Waiting, ignored := s.ignored + 1)
    case AcceptEnd =>
      s.(state := Idle, receiving := Waiting, finished := s.finished + [Finished(s.shown, s.reply)], shown := [])
  }

  function AsLines(lines: seq<string>): seq<Down> {
    seq(|lines|, i requires 0 <= i < |lines| => Line(lines[i]))
  }

  function Requests(up: seq<Up>): nat {
    if up == [] then 0 else (if up[0] == LoadRequest then 1 else 0) + Requests(up[1..])
  }

  function Ends(down: seq<Down>): nat {
    if down == [] then 0 else (if down[0] == End then 1 else 0) + Ends(down[1..])
  }

  function Lines(down: seq<Down>): seq<string> {
    if down == [] then [] else (if down[0].Line? then [down[0].line] else []) + Lines(down[1..])
  }

  /** No line travels behind an end marker. */
  predicate EndIsLast(down: seq<Down>) {
    down != [] ==> (if down[0] == End then Lines(down[1..]) == [] else EndIsLast(down[1..]))
  }

  predicate HoldsEnd(r: Receiving) {
    r == EndArrived || r == EndPassed || r == EndAccepted
  }

  /** Load requests and end markers in flight, a reply being sent, a marker in hand. */
  function InFlight(s: Session): nat {
    Requests(s.up) + (if s.serving.ServingLines? then 1 else 0) + Ends(s.down) + (if HoldsEnd(s.receiving) then 1 else 0)
  }

  function InHand(r: Receiving): seq<string> {
    if r.LineArrived? || r.LineAccepted? then [r.line] else []
  }

  /** The lines of the reply that are not shown yet. */
  function Coming(s: Session): seq<string> {
    InHand(s.receiving) + (Lines(s.down) + if s.serving.ServingLines? then s.serving.rest else [])
  }

  /** Whether the load under way has reached the server. */
  predicate BeingServed(s: Session) {
    s.serving.ServingLines? || Ends(s.down) > 0 || HoldsEnd(s.receiving)
  }

  predicate TypingAgrees(s: Session) {
    match s.typing
    case Passed => s.state != Requesting
    case Cleared => s.state == Idle
    case Marked => s.state == Requesting
    case _ => true
  }

  predicate Invariant(s: Session) {
    && InFlight(s) + (if s.typing == Marked then 1 else 0) == (if s.state == Idle then 0 else 1)
    && TypingAgrees(s)
    && s.unexpected == 0 && s.ignored == 0
    && (if BeingServed(s) then s.reply == s.shown + Coming(s) else s.shown == [] && Coming(s) == [])
    && (HoldsEnd(s.receiving) ==> Coming(s) == [])
    && (s.receiving == EndPassed ==> s.state == Loading)
    && EndIsLast(s.down)
    && forall f :: f in s.finished ==> f.shown == f.reply
  }

  lemma {:induction false} UpAppend(up: seq<Up>, more: Up)
    ensures Requests(up + [more]) == Requests(up) + if more == LoadRequest then 1 else 0
  {
    if up == [] {
      assert up + [more] == [more];
    } else {
      assert (up + [more])[1..] == up[1..] + [more];
      UpAppend(up[1..], more);
    }
  }

  lemma {:induction false} DownAppend(down: seq<Down>, more: Down)
    ensures Ends(down + [more]) == Ends(down) + if more == End then 1 else 0
    ensures Lines(down + [more]) == Lines(down) + if more.Line? then [more.line] else []
    ensures EndIsLast(down) && (more.Line? ==> Ends(down) == 0) ==> EndIsLast(down + [more])
  {
    if down == [] {
      assert down + [more] == [more];
    } else {
      assert (down + [more])[1..] == down[1..] + [more];
      DownAppend(down[1..], more);
    }
  }

  lemma TypingKeepsInvariant(s: Session, a: Action)
    requires Invariant(s) && Enabled(s, a)
    requires a.EnterLoad? || a.CheckRequesting? || a.CheckLoading? || a.MarkRequesting? || a.SendLoad? || a.SendOther?
    ensures Invariant(Next(s, a))
  {
    match a
    case SendLoad => UpAppend(s.up, LoadRequest);
    case SendOther => UpAppend(s.up, OtherRequest);
    case _ =>
  }

  lemma ServingKeepsInvariant(s: Session, a: Action)
    requires Invariant(s) && Enabled(s, a)
    requires a.ServeRequest? || a.ServeLine? || a.ServeEnd? || a.ServeOther?
    ensures Invariant(Next(s, a))
  {
    match a
    case ServeRequest(history) =>
      if s.up[0] == LoadRequest {
        assert InHand(s.receiving) == [] && Lines(s.down) == [];
        ConcatNothing(history);
      }
    case ServeLine => ServeLineKeepsInvariant(s);
    case ServeEnd => DownAppend(s.down, End);
    case ServeOther => DownAppend(s.down, OtherPacket);
  }

  lemma ServeLineKeepsInvariant(s: Session)
    requires Invariant(s) && Enabled(s, ServeLine)
    ensures Invariant(Next(s, ServeLine))
  {
    var rest := s.serving.rest;
    DownAppend(s.down, Line(rest[0]));
    ConcatAssociates(Lines(s.down), [rest[0]], rest[1..]);
    assert rest == [rest[0]] + rest[1..];
  }

  lemma ReceivingKeepsInvariant(s: Session, a: Action)
    requires Invariant(s) && Enabled(s, a)
    requires a.TakePacket? || a.CheckLine? || a.AcceptLine? || a.CheckEndRequesting? || a.CheckEndLoading? || a.AcceptEnd?
    ensures Invariant(Next(s, a))
  {
    match a
    case TakePacket => TakeKeepsInvariant(s);
    case AcceptLine => AcceptLineKeepsInvariant(s);
    case AcceptEnd =>
      assert s.shown + [] == s.shown;
    case _ =>
  }

  lemma AcceptLineKeepsInvariant(s: Session)
    requires Invariant(s) && Enabled(s, AcceptLine)
    ensures Invariant(Next(s, AcceptLine))
  {
    var line, rest := s.receiving.line, Lines(s.down) + if s.serving.ServingLines? then s.serving.rest else [];
    assert Coming(s) == [line] + rest && Coming(s) != [];
    assert s.shown + ([line] + rest) == s.shown + [line] + rest;
    assert [] + rest == rest;
  }

  lemma {:induction false} NoEndAhead(down: seq<Down>)
    ensures Ends(down) == 0 ==> EndIsLast(down)
  {
    if down != [] {
      NoEndAhead(down[1..]);
    }
  }

  lemma TakeKeepsInvariant(s: Session)
    requires Invariant(s) && Enabled(s, TakePacket)
    ensures Invariant(Next(s, TakePacket))
  {
    var rest := if s.serving.ServingLines? then s.serving.rest else [];
    match s.down[0]
    case Line(line) =>
      assert [] + ([line] + Lines(s.down[1..]) + rest) == [line] + (Lines(s.down[1..]) + rest);
    case End =>
      assert Lines(s.down[1..]) == [];
      NoEndAhead(s.down[1..]);
    case OtherPacket =>
      assert Lines(s.down) == Lines(s.down[1..]);
  }

  lemma StepKeepsInvariant(s: Session, a: Action)
    requires Invariant(s) && Enabled(s, a)
    ensures Invariant(Next(s, a))
  {
    match a
    case EnterLoad => TypingKeepsInvariant(s, a);
    case CheckRequesting => TypingKeepsInvariant(s, a);
    case CheckLoading => TypingKeepsInvariant(s, a);
    case MarkRequesting => TypingKeepsInvariant(s, a);
    case SendLoad => TypingKeepsInvariant(s, a);
    case SendOther => TypingKeepsInvariant(s, a);
    case ServeRequest(_) => ServingKeepsInvariant(s, a);
    case ServeLine => ServingKeepsInvariant(s, a);
    case ServeEnd => ServingKeepsInvariant(s, a);
    case ServeOther => ServingKeepsInvariant(s, a);
    case _ => ReceivingKeepsInvariant(s, a);
  }

  predicate TakesLoad(s: Session, a: Action)
    requires Enabled(s, a)
  {
    a.ServeRequest? && s.up[0] == LoadRequest
  }

  /** A reply is under way from when its request is taken until its end marker has been
      accepted, one at a time, and it is that reply that the finished load records. */
  lemma ServiceStep(s: Session, a: Action)
    requires Invariant(s) && Enabled(s, a)
    ensures var s' := Next(s, a);
            if TakesLoad(s, a) then
              !BeingServed(s) && BeingServed(s') && s'.reply == a.history && s'.finished == s.finished
            else if a == AcceptEnd then
              BeingServed(s) && !BeingServed(s') && s'.finished == s.finished + [Finished(s.shown, s.reply)]
            else
              BeingServed(s') == BeingServed(s) && s'.reply == s.reply && s'.finished == s.finished
  {
    match a
    case ServeLine => DownAppend(s.down, Line(s.serving.rest[0]));
    case ServeEnd => DownAppend(s.down, End);
    case ServeOther => DownAppend(s.down, OtherPacket);
    case _ =>
  }

  /** `s'` is reached from `s` by the given interleaving. */
  predicate Run(s: Session, actions: seq<Action>, s': Session)
    decreases |actions|
  {
    if actions == [] then s == s'
    else Enabled(s, actions[0]) && Run(Next(s, actions[0]), actions[1..], s')
  }

  lemma {:induction false} RunKeepsInvariant(s: Session, actions: seq<Action>, s': Session)
    requires Invariant(s) && Run(s, actions, s')
    ensures Invariant(s')
    decreases |actions|
  {
    if actions != [] {
      StepKeepsInvariant(s, actions[0]);
      RunKeepsInvariant(Next(s, actions[0]), actions[1..], s');
    }
  }

  /** Load safety under every interleaving: at most one load is in flight and none in
      the idle state, the "unexpected loading message" branch is never taken, no end
      marker is dropped, and every finished load showed the whole reply, in order. */
  lemma LoadsAreSafe(actions: seq<Action>, s: Session)
    requires Run(FRESH, actions, s)
    ensures Requests(s.up) + Ends(s.down) <= InFlight(s) <= 1
    ensures s.state == Idle ==> InFlight(s) == 0
    ensures s.state != Idle && s.typing != Marked ==> InFlight(s) == 1
    ensures s.unexpected == 0 && s.ignored == 0
    ensures forall f :: f in s.finished ==> f.shown == f.reply
  {
    RunKeepsInvariant(FRESH, actions, s);
  }
}
