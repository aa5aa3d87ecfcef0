/** The hangman participant list of the group server (group_server_comms.c): a singly
    linked heap list of UIDs, refined to a sequence. */
module Participants {
  import opened CText

  /** The list without the first occurrence of `uid`. */
  function RemoveFirst(list: seq<string>, uid: string): seq<string> {
    if list == [] then []
    else if list[0] == uid then list[1..]
    else [list[0]] + RemoveFirst(list[1..], uid)
  }

  lemma {:induction false} RemoveFirstAt(list: seq<string>, uid: string, k: nat)
    requires k < |list| && list[k] == uid && uid !in list[..k]
    ensures RemoveFirst(list, uid) == list[..k] + list[k + 1..]
  {
    if k > 0 {
      assert list[0] in list[..k];
      assert list[1..][..k - 1] == list[..k][1..];
      RemoveFirstAt(list[1..], uid, k - 1);
      assert list[..k] == [list[0]] + list[1..][..k - 1];
      assert list[1..][k..] == list[k + 1..];
    }
  }

  lemma {:induction false} RemoveFirstAbsent(list: seq<string>, uid: string)
    requires uid !in list
    ensures RemoveFirst(list, uid) == list
  {
    if list != [] {
      assert list[0] in list;
      RemoveFirstAbsent(list[1..], uid);
    }
  }

  lemma {:induction false} RemoveFirstCounts(list: seq<string>, uid: string, other: string)
    ensures var was, now := multiset(list)[other], multiset(RemoveFirst(list, uid))[other];
            now == if other == uid && was > 0 then was - 1 else was
  {
    if list != [] {
      assert list == [list[0]] + list[1..];
      RemoveFirstCounts(list[1..], uid, other);
    }
  }

  // ------------------------------------------------------- whole runs of the list

  datatype ListOp = Add(uid: string) | Remove(uid: string) | Free

  function Apply(list: seq<string>, op: ListOp): seq<string> {
    match op
    case Add(uid) => [uid] + list
    case Remove(uid) => RemoveFirst(list, uid)
    case Free => []
  }

  /** The list after a run, last operation last. */
  function ListAfter(ops: seq<ListOp>): seq<string> {
    if ops == [] then [] else Apply(ListAfter(ops[..|ops| - 1]), ops[|ops| - 1])
  }

  /** How often `uid` was added less how often it was removed with effect, since the
      list was last freed: kept by counting alone. */
  function Tally(ops: seq<ListOp>, uid: string): nat {
    if ops == [] then 0
    else
      var before := Tally(ops[..|ops| - 1], uid);
      match ops[|ops| - 1]
      case Add(u) => if u == uid then before + 1 else before
      case Remove(u) => if u == uid && before > 0 then before - 1 else before
      case Free => 0
  }

  /** Over any run every UID's multiplicity in the list is its tally. */
  lemma {:induction false} MultiplicityIsTally(ops: seq<ListOp>, uid: string)
    ensures multiset(ListAfter(ops))[uid] == Tally(ops, uid)
  {
    if ops != [] {
      var before := ListAfter(ops[..|ops| - 1]);
      MultiplicityIsTally(ops[..|ops| - 1], uid);
      match ops[|ops| - 1]
      case Add(u) =>
      case Remove(u) => RemoveFirstCounts(before, u, uid);
      case Free =>
    }
  }

  // ------------------------------------------------------- the heap list

  class UserNode {
    const uid: string
    var next: UserNode?

    constructor (uid: string, next: UserNode?)
      ensures this.uid == uid && this.next == next
    {
      this.uid, this.next := uid, next;
    }
  }

  class UserList {
    var head: UserNode?
    ghost var nodes: seq<UserNode>

    /** The nodes from `head` on are exactly `nodes`, each once: an acyclic list. */
    ghost predicate Valid()
      reads this, nodes
    {
      && (forall i, j :: 0 <= i < j < |nodes| ==> nodes[i] != nodes[j])
      && head == NodeAt(0)
      && (forall i {:trigger nodes[i].next} :: 0 <= i < |nodes| ==> nodes[i].next == NodeAt(i + 1))
    }

    ghost function NodeAt(i: nat): UserNode?
      reads this
    {
      if i < |nodes| then nodes[i] else null
    }

    static ghost function UidsOf(nodes: seq<UserNode>): seq<string> {
      seq(|nodes|, i requires 0 <= i < |nodes| => nodes[i].uid)
    }

    ghost function Uids(): (s: seq<string>)
      reads this
      ensures |s| == |nodes|
    {
      UidsOf(nodes)
    }

    constructor ()
      ensures Valid() && Uids() == [] && nodes == []
    {
      head, nodes := null, [];
    }

    method AddUser(uid: string)
      requires Valid()
      modifies this
      ensures Valid() && Uids() == [Clip(uid, UID_LENGTH)] + old(Uids())
      ensures |nodes| > 0 && fresh(nodes[0]) && nodes[1..] == old(nodes)
    {
      ghost var before := nodes;
      var node := new UserNode(Clip(uid, UID_LENGTH), head);
      head := node;
      nodes := [node] + before;
      assert nodes[1..] == before;
    }

    /** The walk of `remove_user`: the first node holding `uid`, the node in front of
        it, and (ghost) its position; null when there is none. */
    method FindUser(uid: string) returns (previous: UserNode?, current: UserNode?, ghost k: nat)
      requires Valid()
      ensures k <= |nodes| && current == NodeAt(k)
      ensures if k == 0 then previous == null else previous == nodes[k - 1]
      ensures uid !in Uids()[..k]
      ensures current != null ==> current.uid == uid
    {
      previous, current, k := null, head, 0;
      while current != null
        invariant k <= |nodes| && current == NodeAt(k)
        invariant if k == 0 then previous == null else previous == nodes[k - 1]
        invariant uid !in Uids()[..k]
        decreases |nodes| - k
      {
        if current.uid == uid { return; }
        previous := current;
        current := current.next;
        k := k + 1;
      }
    }

    method RemoveUser(uid: string)
      requires Valid()
      modifies this, nodes
      ensures Valid() && Uids() == RemoveFirst(old(Uids()), uid)
      ensures forall n :: n in nodes ==> n in old(nodes)
    {
      var previous, current, k := FindUser(uid);
      if current == null {
        assert Uids()[..k] == Uids();
        RemoveFirstAbsent(Uids(), uid);
        return;
      }
      RemoveFirstAt(Uids(), uid, k);
      Unlink(previous, current, k);
    }

    method Unlink(previous: UserNode?, current: UserNode, ghost k: nat)
      requires Valid() && k < |nodes| && current == nodes[k]
      requires if k == 0 then previous == null else previous == nodes[k - 1]
      modifies this, previous
      ensures Valid() && nodes == old(nodes)[..k] + old(nodes)[k + 1..]
      ensures Uids() == old(Uids())[..k] + old(Uids())[k + 1..]
    {
      if previous == null {
        head := current.next;
      } else {
        previous.next := current.next;
      }
      nodes := nodes[..k] + nodes[k + 1..];
    }

    method FreeUsers()
      requires Valid()
      modifies this
      ensures Valid() && Uids() == [] && nodes == []
    {
      var current := head;
      ghost var k := 0;
      while current != null
        invariant k <= |nodes| && current == NodeAt(k)
        decreases |nodes| - k
      {
        current := current.next;
        k := k + 1;
      }
      head, nodes := null, [];
    }

    method UserInList(uid: string) returns (found: bool)
      requires Valid()
      ensures found <==> multiset(Uids())[uid] > 0
    {
      var current := head;
      ghost var k := 0;
      while current != null
        invariant k <= |nodes| && current == NodeAt(k)
        invariant uid !in Uids()[..k]
        decreases |nodes| - k
      {
        if current.uid == uid {
          assert Uids()[k] == uid;
          return true;
        }
        current := current.next;
        k := k + 1;
      }
      assert Uids()[..k] == Uids();
      return false;
    }
  }
}
