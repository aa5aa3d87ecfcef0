/** One pass over the poll array (`process_connections`, group_server_comms.c): the
    index steps back after a swap-removal and the array grows under it on accept. */
module PollPass {
  import opened Collections
  import opened GroupServer

  /** What one pass finds: the descriptor `accept` would return and, for each
      descriptor, what reading from it would give. */
  datatype Input = Input(newFd: int, arrivals: map<int, Arrival>)

  /** The listener is slot 0 and only slot 0. */
  predicate ListenerFirst(s: Server) {
    |s.pfds| > 0 && s.pfds[0].fd == s.listener && forall k :: 0 < k < |s.pfds| ==> s.pfds[k].fd != s.listener
  }

  /** The steps a pass can still take: the slots from `i` on, and one more while the
      listener, where the array can grow, is unvisited. */
  function ToVisit(count: int, i: nat): int {
    count - i + if i == 0 then 1 else 0
  }

  /** Every read of the pass has an outcome and stays inside the server's memory. */
  predicate PassDefined(s: Server, i: nat, input: Input)
    requires GameInvariant(s) && ListenerFirst(s) && input.newFd != s.listener
    decreases ToVisit(|s.pfds|, i)
  {
    if i >= |s.pfds| then true
    else if !s.pfds[i].ready then PassDefined(s, i + 1, input)
    else if i == 0 then PassDefined(Accept(s, input.newFd), 1, input)
    else
      && s.pfds[i].fd in input.arrivals
      && InBounds(s, i, input.arrivals[s.pfds[i].fd].recv)
      && (HandleKeepsPass(s, i, input.arrivals[s.pfds[i].fd]);
          PassDefined(Handle(s, i, input.arrivals[s.pfds[i].fd]).0, Resume(i, input.arrivals[s.pfds[i].fd]), input))
  }

  /** The next index to look at: a removed slot is examined again. */
  function Resume(i: nat, arrival: Arrival): nat {
    if arrival.recv == Hangup then i else i + 1
  }

  lemma HandleKeepsPass(s: Server, i: nat, arrival: Arrival)
    requires GameInvariant(s) && ListenerFirst(s) && InBounds(s, i, arrival.recv)
    ensures var s' := Handle(s, i, arrival).0;
            && GameInvariant(s') && ListenerFirst(s') && s'.listener == s.listener
            && |s'.pfds| - Resume(i, arrival) == |s.pfds| - i - 1
            && s'.pfds == if arrival.recv == Hangup then s.pfds[i := s.pfds[|s.pfds| - 1]][..|s.pfds| - 1] else s.pfds
  {
    HandleKeepsGame(s, i, arrival);
  }

  /** The pass from index `i` on: the server after it, what was sent, and the
      descriptors read, in order. */
  function Pass(s: Server, i: nat, input: Input): (Server, seq<Sent>, seq<int>)
    requires GameInvariant(s) && ListenerFirst(s) && input.newFd != s.listener && PassDefined(s, i, input)
    decreases ToVisit(|s.pfds|, i)
  {
    if i >= |s.pfds| then (s, [], [])
    else if !s.pfds[i].ready then Pass(s, i + 1, input)
    else if i == 0 then Pass(Accept(s, input.newFd), 1, input)
    else
      var fd := s.pfds[i].fd;
      HandleKeepsPass(s, i, input.arrivals[fd]);
      var (s', sent) := Handle(s, i, input.arrivals[fd]);
      var (end, later, handled) := Pass(s', Resume(i, input.arrivals[fd]), input);
      (end, sent + later, [fd] + handled)
  }

  /** A pass continued from what was sent and read before. */
  function PassFrom(s: Server, i: nat, input: Input, sent: seq<Sent>, handled: seq<int>): (Server, seq<Sent>, seq<int>)
    requires GameInvariant(s) && ListenerFirst(s) && input.newFd != s.listener && PassDefined(s, i, input)
  {
    var (end, more, fds) := Pass(s, i, input);
    (end, sent + more, handled + fds)
  }

  lemma PassFromEnd(s: Server, i: nat, input: Input, sent: seq<Sent>, handled: seq<int>)
    requires GameInvariant(s) && ListenerFirst(s) && input.newFd != s.listener && i >= |s.pfds|
    ensures PassFrom(s, i, input, sent, handled) == (s, sent, handled)
  {
    assert sent + [] == sent && handled + [] == handled;
  }

  lemma PassFromSkip(s: Server, i: nat, input: Input, sent: seq<Sent>, handled: seq<int>)
    requires GameInvariant(s) && ListenerFirst(s) && input.newFd != s.listener && PassDefined(s, i, input)
    requires i < |s.pfds| && (!s.pfds[i].ready || i == 0)
    ensures var s' := if s.pfds[i].ready then Accept(s, input.newFd) else s;
            && GameInvariant(s') && ListenerFirst(s') && PassDefined(s', i + 1, input)
            && ToVisit(|s'.pfds|, i + 1) < ToVisit(|s.pfds|, i)
            && PassFrom(s, i, input, sent, handled) == PassFrom(s', i + 1, input, sent, handled)
  {
  }

  lemma PassFromStep(s: Server, i: nat, input: Input, sent: seq<Sent>, handled: seq<int>)
    requires GameInvariant(s) && ListenerFirst(s) && input.newFd != s.listener && PassDefined(s, i, input)
    requires 1 <= i < |s.pfds| && s.pfds[i].ready
    ensures var fd := s.pfds[i].fd;
            var (s', sends) := Handle(s, i, input.arrivals[fd]);
            var next := Resume(i, input.arrivals[fd]);
            && GameInvariant(s') && ListenerFirst(s') && s'.listener == s.listener && PassDefined(s', next, input)
            && PassFrom(s, i, input, sent, handled) == PassFrom(s', next, input, sent + sends, handled + [fd])
  {
    var fd := s.pfds[i].fd;
    HandleKeepsPass(s, i, input.arrivals[fd]);
    var (s', sends) := Handle(s, i, input.arrivals[fd]);
    var (end, later, fds) := Pass(s', Resume(i, input.arrivals[fd]), input);
    assert sent + (sends + later) == sent + sends + later;
    assert handled + ([fd] + fds) == handled + [fd] + fds;
  }

  /** The connections that were ready when the pass began. */
  function ReadyFds(pfds: seq<PollFd>): seq<int> {
    if pfds == [] then []
    else (if pfds[0].ready then [pfds[0].fd] else []) + ReadyFds(pfds[1..])
  }

  lemma {:induction false} ReadyFdsAppend(a: seq<PollFd>, b: seq<PollFd>)
    ensures ReadyFds(a + b) == ReadyFds(a) + ReadyFds(b)
  {
    if a == [] {
      assert a + b == b;
    } else {
      assert (a + b)[1..] == a[1..] + b;
      ReadyFdsAppend(a[1..], b);
      ConcatAssociates(if a[0].ready then [a[0].fd] else [], ReadyFds(a[1..]), ReadyFds(b));
    }
  }

  lemma {:induction false} PassReadsRest(s: Server, i: nat, input: Input)
    requires GameInvariant(s) && ListenerFirst(s) && input.newFd != s.listener
    requires 1 <= i <= |s.pfds| && PassDefined(s, i, input)
    ensures multiset(Pass(s, i, input).2) == multiset(ReadyFds(s.pfds[i..]))
    decreases |s.pfds| - i
  {
    if i < |s.pfds| {
      assert s.pfds[i..][1..] == s.pfds[i + 1..];
      if !s.pfds[i].ready {
        PassReadsRest(s, i + 1, input);
      } else {
        var arrival := input.arrivals[s.pfds[i].fd];
        HandleKeepsPass(s, i, arrival);
        var s' := Handle(s, i, arrival).0;
        PassReadsRest(s', Resume(i, arrival), input);
        RestAfter(s.pfds, s'.pfds, i, arrival);
        assert Pass(s, i, input).2 == [s.pfds[i].fd] + Pass(s', Resume(i, arrival), input).2;
      }
    }
  }

  lemma RestAfter(pfds: seq<PollFd>, pfds': seq<PollFd>, i: nat, arrival: Arrival)
    requires i < |pfds|
    requires pfds' == if arrival.recv == Hangup then pfds[i := pfds[|pfds| - 1]][..|pfds| - 1] else pfds
    ensures multiset(ReadyFds(pfds'[Resume(i, arrival)..])) == multiset(ReadyFds(pfds[i + 1..]))
  {
    if arrival.recv == Hangup {
      SwapRemoval(pfds, i);
    }
  }

  /** What is left to visit after a swap-removal is what was left before, reordered. */
  lemma SwapRemoval(pfds: seq<PollFd>, i: nat)
    requires i < |pfds|
    ensures var n := |pfds| - 1;
            multiset(ReadyFds(pfds[i := pfds[n]][..n][i..])) == multiset(ReadyFds(pfds[i + 1..]))
  {
    var n := |pfds| - 1;
    var swapped := pfds[i := pfds[n]][..n];
    if i < n {
      var middle, last := pfds[i + 1..n], pfds[n];
      assert swapped[i..] == [last] + middle;
      assert pfds[i + 1..] == middle + [last];
      ReadyFdsAppend([last], middle);
      ReadyFdsAppend(middle, [last]);
    } else {
      assert swapped[i..] == [] && pfds[i + 1..] == [];
    }
  }

  /** One pass reads every connection that was ready at its start exactly once, and no
      other: none is skipped by a swap-removal, none read twice, and the one accepted
      during the pass is left for the next. */
  lemma PassReadsReadyOnce(s: Server, input: Input)
    requires GameInvariant(s) && ListenerFirst(s) && input.newFd != s.listener && PassDefined(s, 0, input)
    ensures multiset(Pass(s, 0, input).2) == multiset(ReadyFds(s.pfds[1..]))
  {
    assert s.pfds[0..][1..] == s.pfds[1..];
    if s.pfds[0].ready {
      var s' := Accept(s, input.newFd);
      PassReadsRest(s', 1, input);
      if s' != s {
        assert s'.pfds[1..] == s.pfds[1..] + [PollFd(input.newFd, false)];
        ReadyFdsAppend(s.pfds[1..], [PollFd(input.newFd, false)]);
      }
    } else {
      PassReadsRest(s, 1, input);
    }
  }

  lemma {:induction false} ReadyFdsCount(pfds: seq<PollFd>, k: nat)
    requires k < |pfds| && forall i, j :: 0 <= i < j < |pfds| ==> pfds[i].fd != pfds[j].fd
    ensures multiset(ReadyFds(pfds))[pfds[k].fd] == if pfds[k].ready then 1 else 0
    ensures forall fd :: fd in ReadyFds(pfds) ==> exists i :: 0 <= i < |pfds| && pfds[i].fd == fd
  {
    var rest := pfds[1..];
    assert pfds == [pfds[0]] + rest;
    if rest != [] {
      ReadyFdsCount(rest, if k == 0 then 0 else k - 1);
    }
    forall fd | fd in ReadyFds(pfds) ensures exists i :: 0 <= i < |pfds| && pfds[i].fd == fd {
      if fd in ReadyFds(rest) {
        var i :| 0 <= i < |rest| && rest[i].fd == fd;
        assert pfds[i + 1].fd == fd;
      } else {
        assert pfds[0].fd == fd;
      }
    }
    if k == 0 {
      assert pfds[0].fd !in ReadyFds(rest);
    }
  }

  /** The same said of one connection: read once if it was ready, else not at all. */
  lemma EachReadyOnce(s: Server, input: Input, k: nat)
    requires GameInvariant(s) && ListenerFirst(s) && input.newFd != s.listener && PassDefined(s, 0, input)
    requires forall i, j :: 0 <= i < j < |s.pfds| ==> s.pfds[i].fd != s.pfds[j].fd
    requires 1 <= k < |s.pfds|
    ensures multiset(Pass(s, 0, input).2)[s.pfds[k].fd] == if s.pfds[k].ready then 1 else 0
    ensures input.newFd !in (set i | 0 <= i < |s.pfds| :: s.pfds[i].fd) ==> input.newFd !in Pass(s, 0, input).2
  {
    PassReadsReadyOnce(s, input);
    var connections := s.pfds[1..];
    ReadyFdsCount(connections, k - 1);
    if input.newFd in Pass(s, 0, input).2 {
      assert input.newFd in multiset(ReadyFds(connections));
      assert input.newFd in ReadyFds(connections);
      var i :| 0 <= i < |connections| && connections[i].fd == input.newFd;
      assert s.pfds[i + 1].fd == input.newFd;
    }
  }
}
