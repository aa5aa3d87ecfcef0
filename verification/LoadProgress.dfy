/** That loads do happen: what each side of the load protocol does when it is left alone,
    and that from every reachable state a load can be asked for, answered and finished. */
module LoadProgress {
  import opened Collections
  import opened LoadProtocol

  // ------------------------------------------------------------------ runs

  lemma RunOne(s: Session, a: Action)
    requires Enabled(s, a)
    ensures Run(s, [a], Next(s, a))
  {
    assert [a][1..] == [];
  }

  lemma {:induction false} RunsJoin(s: Session, a: seq<Action>, mid: Session, b: seq<Action>, s': Session)
    requires Run(s, a, mid) && Run(mid, b, s')
    ensures Run(s, a + b, s')
    decreases |a|
  {
    if a == [] {
      ConcatNothing(b);
    } else {
      assert (a + b)[1..] == a[1..] + b;
      RunsJoin(Next(s, a[0]), a[1..], mid, b, s');
    }
  }

  lemma RunCons(s: Session, a: Action, rest: seq<Action>, s': Session)
    requires Enabled(s, a) && Run(Next(s, a), rest, s')
    ensures Run(s, [a] + rest, s')
  {
    assert ([a] + rest)[1..] == rest;
  }

  // ------------------------------------------------------------------ each handler alone

  const TYPING: seq<Action> := [EnterLoad, CheckRequesting, CheckLoading, MarkRequesting, SendLoad]

  /** `/load` typed in the idle state: both comparisons are passed, the state is set and
      the request goes out. */
  lemma IdleLoadIsSent(s: Session)
    requires s.state == Idle && s.typing == AtPrompt
    ensures Run(s, TYPING, s.(state := Requesting, up := s.up + [LoadRequest]))
  {
    var entered := Next(s, EnterLoad);
    var passed := Next(entered, CheckRequesting);
    var cleared := Next(passed, CheckLoading);
    var marked := Next(cleared, MarkRequesting);
    RunOne(marked, SendLoad);
    RunCons(cleared, MarkRequesting, [SendLoad], Next(marked, SendLoad));
    RunCons(passed, CheckLoading, [MarkRequesting] + [SendLoad], Next(marked, SendLoad));
    RunCons(entered, CheckRequesting, [CheckLoading] + ([MarkRequesting] + [SendLoad]), Next(marked, SendLoad));
    RunCons(s, EnterLoad, [CheckRequesting] + ([CheckLoading] + ([MarkRequesting] + [SendLoad])), Next(marked, SendLoad));
    assert [EnterLoad] + ([CheckRequesting] + ([CheckLoading] + ([MarkRequesting] + [SendLoad]))) == TYPING;
  }

  /** `/load` typed at any other time changes nothing. */
  lemma BusyLoadIsRefused(s: Session)
    requires s.state != Idle && s.typing == AtPrompt
    ensures Run(s, [EnterLoad, CheckRequesting] + if s.state == Loading then [CheckLoading] else [], s)
  {
    var entered := Next(s, EnterLoad);
    var checked := Next(entered, CheckRequesting);
    if s.state == Loading {
      RunOne(checked, CheckLoading);
      RunCons(entered, CheckRequesting, [CheckLoading], s);
      RunCons(s, EnterLoad, [CheckRequesting] + [CheckLoading], s);
      assert [EnterLoad] + ([CheckRequesting] + [CheckLoading]) == [EnterLoad, CheckRequesting] + [CheckLoading];
    } else {
      RunOne(entered, CheckRequesting);
      RunCons(s, EnterLoad, [CheckRequesting], s);
      assert [EnterLoad] + [CheckRequesting] == [EnterLoad, CheckRequesting] + [];
    }
  }

  /** A history line taken in: refused in the idle state, otherwise shown, and the state
      is the loading one. */
  lemma LineHandled(s: Session, line: string)
    requires s.receiving == Waiting && s.down != [] && s.down[0] == Line(line)
    ensures var rest := s.(down := s.down[1..]);
            if s.state == Idle then Run(s, [TakePacket, CheckLine], rest.(unexpected := s.unexpected + 1))
            else Run(s, [TakePacket, CheckLine, AcceptLine], rest.(state := Loading, shown := s.shown + [line]))
  {
    var taken := Next(s, TakePacket);
    var checked := Next(taken, CheckLine);
    if s.state == Idle {
      RunOne(taken, CheckLine);
      RunCons(s, TakePacket, [CheckLine], checked);
      assert [TakePacket] + [CheckLine] == [TakePacket, CheckLine];
    } else {
      RunOne(checked, AcceptLine);
      RunCons(taken, CheckLine, [AcceptLine], Next(checked, AcceptLine));
      RunCons(s, TakePacket, [CheckLine] + [AcceptLine], Next(checked, AcceptLine));
      assert [TakePacket] + ([CheckLine] + [AcceptLine]) == [TakePacket, CheckLine, AcceptLine];
    }
  }

  /** An end marker taken in: the load is finished and the state is idle; one met in the
      idle state changes nothing. */
  lemma EndHandled(s: Session) returns (actions: seq<Action>)
    requires s.receiving == Waiting && s.down != [] && s.down[0] == End
    ensures actions == [TakePacket] + ([CheckEndRequesting] + if s.state == Requesting then [AcceptEnd]
                         else if s.state == Loading then [CheckEndLoading] + [AcceptEnd] else [CheckEndLoading])
    ensures var rest := s.(down := s.down[1..]);
            Run(s, actions, if s.state == Idle then rest.(ignored := s.ignored + 1)
                            else rest.(state := Idle, finished := s.finished + [Finished(s.shown, s.reply)], shown := []))
  {
    var taken := Next(s, TakePacket);
    var checked := Next(taken, CheckEndRequesting);
    match s.state
    case Requesting =>
      RunOne(checked, AcceptEnd);
      RunCons(taken, CheckEndRequesting, [AcceptEnd], Next(checked, AcceptEnd));
      actions := [TakePacket] + ([CheckEndRequesting] + [AcceptEnd]);
      RunCons(s, TakePacket, [CheckEndRequesting] + [AcceptEnd], Next(checked, AcceptEnd));
    case Loading =>
      var accepted := Next(checked, CheckEndLoading);
      RunOne(accepted, AcceptEnd);
      RunCons(checked, CheckEndLoading, [AcceptEnd], Next(accepted, AcceptEnd));
      RunCons(taken, CheckEndRequesting, [CheckEndLoading] + [AcceptEnd], Next(accepted, AcceptEnd));
      actions := [TakePacket] + ([CheckEndRequesting] + ([CheckEndLoading] + [AcceptEnd]));
      RunCons(s, TakePacket, [CheckEndRequesting] + ([CheckEndLoading] + [AcceptEnd]), Next(accepted, AcceptEnd));
    case Idle =>
      RunOne(checked, CheckEndLoading);
      RunCons(taken, CheckEndRequesting, [CheckEndLoading], Next(checked, CheckEndLoading));
      actions := [TakePacket] + ([CheckEndRequesting] + [CheckEndLoading]);
      RunCons(s, TakePacket, [CheckEndRequesting] + [CheckEndLoading], Next(checked, CheckEndLoading));
  }

  // ------------------------------------------------------------------ coming to rest

  /** Nobody is in the middle of anything and nothing is on its way. */
  predicate Quiet(s: Session) {
    && s.state == Idle && s.typing == AtPrompt && s.receiving == Waiting
    && s.up == [] && s.down == [] && s.serving == NotServing
  }

  /** The load that is still to finish, if there is one: of the history `h` unless the
      server has taken it up already. */
  function Owed(s: Session, h: seq<string>): seq<Finished> {
    if s.state == Idle then [] else var r := if BeingServed(s) then s.reply else h; [Finished(r, r)]
  }

  /** A next step of the server or of the receiving thread, if there is any. */
  function Pending(s: Session, h: seq<string>): Option<Action> {
    if s.serving.ServingLines? then Some(if s.serving.rest == [] then ServeEnd else ServeLine)
    else if s.up != [] then Some(ServeRequest(h))
    else match s.receiving
         case Waiting => if s.down == [] then None else Some(TakePacket)
         case LineArrived(_) => Some(CheckLine)
         case LineAccepted(_) => Some(AcceptLine)
         case EndArrived => Some(CheckEndRequesting)
         case EndPassed => Some(CheckEndLoading)
         case EndAccepted => Some(AcceptEnd)
  }

  function ServingSize(s: Session): nat {
    match s.serving
    case NotServing => 0
    case ServingLines(rest) => 1 + |rest|
  }

  function ReceivingSize(r: Receiving): nat {
    match r
    case Waiting => 0
    case LineArrived(_) => 2
    case LineAccepted(_) => 1
    case EndArrived => 3
    case EndPassed => 2
    case EndAccepted => 1
  }

  /** Such a step is enabled, starts no load, loses none, and brings the rest nearer. */
  lemma PendingStep(s: Session, h: seq<string>)
    requires Invariant(s) && s.typing == AtPrompt && Pending(s, h).Some?
    ensures var a := Pending(s, h).value;
            && Enabled(s, a) && Invariant(Next(s, a)) && Next(s, a).typing == AtPrompt
            && Next(s, a).finished + Owed(Next(s, a), h) == s.finished + Owed(s, h)
            && Nearer(Next(s, a), s)
  {
    var a := Pending(s, h).value;
    StepKeepsInvariant(s, a);
    PendingKeepsOwed(s, h, a);
    PendingIsNearer(s, h);
  }

  lemma PendingKeepsOwed(s: Session, h: seq<string>, a: Action)
    requires Invariant(s) && Enabled(s, a) && s.typing == AtPrompt && !a.EnterLoad? && !a.SendOther?
    requires a.ServeRequest? ==> a.history == h
    ensures Next(s, a).finished + Owed(Next(s, a), h) == s.finished + Owed(s, h)
  {
    ServiceStep(s, a);
    IdleKept(s, a);
    if a == AcceptEnd {
      ConcatNothing(s.shown);
      ConcatNothing(s.finished + [Finished(s.shown, s.reply)]);
    }
  }

  lemma PendingIsNearer(s: Session, h: seq<string>)
    requires s.typing == AtPrompt && Pending(s, h).Some?
    ensures var a := Pending(s, h).value;
            Enabled(s, a) && Next(s, a).typing == AtPrompt && Nearer(Next(s, a), s)
  {
  }

  /** Only taking the end marker makes a client idle that was not, and none of these steps
      makes it stop being so. */
  lemma IdleKept(s: Session, a: Action)
    requires Invariant(s) && Enabled(s, a) && s.typing == AtPrompt
    requires !a.EnterLoad? && !a.SendOther?
    ensures if a == AcceptEnd then s.state != Idle && Next(s, a).state == Idle
            else Next(s, a).state == Idle <==> s.state == Idle
  {
  }

  predicate Nearer(s': Session, s: Session) {
    || |s'.up| < |s.up|
    || (|s'.up| == |s.up| && ServingSize(s') < ServingSize(s))
    || (|s'.up| == |s.up| && ServingSize(s') == ServingSize(s) && |s'.down| < |s.down|)
    || (|s'.up| == |s.up| && ServingSize(s') == ServingSize(s) && |s'.down| == |s.down|
        && ReceivingSize(s'.receiving) < ReceivingSize(s.receiving))
  }

  lemma AtRest(s: Session, h: seq<string>)
    requires Invariant(s) && s.typing == AtPrompt && Pending(s, h).None?
    ensures Quiet(s)
  {
  }

  /** With nobody typing, the server and the receiving thread bring everything to rest,
      and the load under way, if there is one, is finished with all its lines shown. */
  lemma {:induction false} Settle(s: Session, h: seq<string>) returns (actions: seq<Action>, s': Session)
    requires Invariant(s) && s.typing == AtPrompt
    ensures Run(s, actions, s') && Invariant(s') && Quiet(s')
    ensures s'.finished == s.finished + Owed(s, h)
    decreases |s.up|, ServingSize(s), |s.down|, ReceivingSize(s.receiving)
  {
    if Pending(s, h).None? {
      AtRest(s, h);
      actions, s' := [], s;
      ConcatNothing(s.finished);
    } else {
      var a := Pending(s, h).value;
      PendingStep(s, h);
      actions, s' := Settle(Next(s, a), h);
      RunCons(s, a, actions, s');
      actions := [a] + actions;
    }
  }

  // ------------------------------------------------------------------ loads can be had

  function TypingSize(t: Typing): nat {
    match t
    case AtPrompt => 0
    case Entered => 4
    case Passed => 3
    case Cleared => 2
    case Marked => 1
  }

  /** The typing thread gets back to its prompt whatever the others have done. */
  lemma {:induction false} FinishTyping(s: Session) returns (actions: seq<Action>, s': Session)
    requires Invariant(s)
    ensures Run(s, actions, s') && Invariant(s') && s'.typing == AtPrompt
    decreases TypingSize(s.typing)
  {
    if s.typing == AtPrompt {
      actions, s' := [], s;
    } else {
      var a := match s.typing
               case Entered => CheckRequesting
               case Passed => CheckLoading
               case Cleared => MarkRequesting
               case _ => SendLoad;
      StepKeepsInvariant(s, a);
      actions, s' := FinishTyping(Next(s, a));
      RunCons(s, a, actions, s');
      actions := [a] + actions;
    }
  }

  /** From every reachable state the client comes back to the idle state with nothing on
      its way, having finished the load under way. */
  lemma IdleCanBeReached(before: seq<Action>, s: Session) returns (actions: seq<Action>, s': Session)
    requires Run(FRESH, before, s)
    ensures Run(s, actions, s') && Quiet(s')
  {
    RunKeepsInvariant(FRESH, before, s);
    var typed, prompt := FinishTyping(s);
    var settled;
    settled, s' := Settle(prompt, []);
    RunsJoin(s, typed, prompt, settled, s');
    actions := typed + settled;
  }

  /** In every reachable state in which the client is idle, a load can be asked for, and of
      whatever history the server takes it up, that whole history can be shown and the
      load finished. */
  lemma LoadCanFinish(before: seq<Action>, s: Session, history: seq<string>) returns (actions: seq<Action>, s': Session)
    requires Run(FRESH, before, s) && s.state == Idle && s.typing == AtPrompt
    ensures Run(s, TYPING + actions, s') && Quiet(s')
    ensures s'.finished == s.finished + [Finished(history, history)]
  {
    RunKeepsInvariant(FRESH, before, s);
    var asked := s.(state := Requesting, up := s.up + [LoadRequest]);
    IdleLoadIsSent(s);
    RunKeepsInvariant(s, TYPING, asked);
    actions, s' := Settle(asked, history);
    RunsJoin(s, TYPING, asked, actions, s');
  }

  /** A reply being sent reaches the client's queue line by line, its end marker last. */
  lemma {:induction false} ServesWhole(s: Session, rest: seq<string>) returns (actions: seq<Action>)
    requires s.serving == ServingLines(rest)
    ensures Run(s, actions, s.(down := s.down + (AsLines(rest) + [End]), serving := NotServing))
    decreases |rest|
  {
    if rest == [] {
      ConcatNothing([End]);
      actions := [ServeEnd];
      RunOne(s, ServeEnd);
    } else {
      var next := Next(s, ServeLine);
      actions := ServesWhole(next, rest[1..]);
      LineFirst(s.down, rest);
      RunCons(s, ServeLine, actions, s.(down := s.down + (AsLines(rest) + [End]), serving := NotServing));
      actions := [ServeLine] + actions;
    }
  }

  lemma LineFirst(down: seq<Down>, rest: seq<string>)
    requires rest != []
    ensures down + [Line(rest[0])] + (AsLines(rest[1..]) + [End]) == down + (AsLines(rest) + [End])
  {
    assert AsLines(rest) == [Line(rest[0])] + AsLines(rest[1..]);
    ConcatAssociates([Line(rest[0])], AsLines(rest[1..]), [End]);
    ConcatAssociates(down, [Line(rest[0])], AsLines(rest[1..]) + [End]);
  }

  /** A load request is taken up with the history as it is, and answered whole. */
  lemma RequestAnswered(s: Session, history: seq<string>) returns (actions: seq<Action>)
    requires s.serving == NotServing && s.up != [] && s.up[0] == LoadRequest
    ensures Run(s, actions, s.(up := s.up[1..], reply := history, down := s.down + (AsLines(history) + [End])))
  {
    var taken := Next(s, ServeRequest(history));
    actions := ServesWhole(taken, history);
    RunCons(s, ServeRequest(history), actions, taken.(down := s.down + (AsLines(history) + [End]), serving := NotServing));
    actions := [ServeRequest(history)] + actions;
  }
}
