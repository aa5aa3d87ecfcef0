/** The group client's receiving side (group_user_comms.c, group_commands.c): globals
    overwritten by handlers, and the resolution of slots and UIDs to names. */
module GroupClient {
  import opened GroupServer
  import opened GroupSystem
  import opened History
  import opened LoadProtocol

  /** What the client puts on the screen, apart from its wording. */
  datatype ScreenItem =
    | Welcome
    | GroupUpdated
    | From(sender: Member, code: nat, text: string)
    | Loaded(name: string, message: string)
    | UnexpectedLine
    | Notification(notice: Notice)

  const OWN_NAME := "You"
  const UNKNOWN_NAME := "Unknown"

  /** The name a loaded message is shown under. */
  function NameOf(myUid: string, group: Group, uid: string): string
    requires group.count <= |group.members|
  {
    if uid == myUid then OWN_NAME
    else
      var j := FindMember(group.members, group.count, uid);
      if j < group.count then group.members[j].nick else UNKNOWN_NAME
  }

  /** With distinct UIDs the name is that of the one member who has the UID now. */
  lemma NameIsCurrent(myUid: string, group: Group, k: nat)
    requires k < group.count <= |group.members| && group.members[k].uid != myUid
    requires forall i, j :: 0 <= i < j < group.count ==> group.members[i].uid != group.members[j].uid
    ensures NameOf(myUid, group, group.members[k].uid) == group.members[k].nick
  {
    var j := FindMember(group.members, group.count, group.members[k].uid);
    assert j == k;
  }

  /** One's own messages are shown as one's own, and those of a UID that nobody in the group
      has as unknown. */
  lemma OtherNames(myUid: string, group: Group, uid: string)
    requires group.count <= |group.members|
    ensures NameOf(myUid, group, myUid) == "You"
    ensures uid != myUid && (forall k :: 0 <= k < group.count ==> group.members[k].uid != uid) ==>
              NameOf(myUid, group, uid) == "Unknown"
  {
  }

  class ClientProcess {
    const myUid: string
    var userGroup: Group
    var initialized: bool
    var loadState: LoadState
    var peer: Member  // ctx->peer_uid and ctx->peer_nick
    var screen: seq<ScreenItem>

    ghost predicate Valid()
      reads this
    {
      |userGroup.members| == MAX_GROUP_MEMBERS && userGroup.count <= MAX_GROUP_MEMBERS
    }

    ghost function View(): Client
      reads this
    {
      Client(userGroup, initialized)
    }

    constructor (myUid: string)
      ensures Valid() && View() == Client(EMPTY_GROUP, false) && loadState == Idle && screen == []
    {
      this.myUid := myUid;
      userGroup, initialized := EMPTY_GROUP, false;
      loadState, peer, screen := Idle, NOBODY, [];
    }

    method GrpObjRecv(group: Group)
      requires |group.members| == MAX_GROUP_MEMBERS && group.count <= MAX_GROUP_MEMBERS
      modifies this`userGroup, this`initialized, this`screen
      ensures Valid() && View() == Client(group, true)
      ensures screen == old(screen) + [if old(initialized) then GroupUpdated else Welcome]
    {
      userGroup := group;
      if !initialized {
        initialized := true;
        screen := screen + [Welcome];
      } else {
        screen := screen + [GroupUpdated];
      }
    }

    /** `/load`, undisturbed by the other thread. */
    method LoadMsgSend() returns (request: bool)
      modifies this`loadState
      ensures request == (old(loadState) == Idle)
      ensures loadState == if request then Requesting else old(loadState)
    {
      if loadState == Requesting { return false; }
      if loadState == Loading { return false; }
      loadState := Requesting;
      return true;
    }

    method LoadMsgRecv()
      modifies this`loadState
      ensures loadState == Idle
    {
      if loadState == Requesting || loadState == Loading {
        loadState := Idle;
      }
    }

    method LoadingMsgRecv(line: string)
      requires Valid()
      modifies this`loadState, this`screen
      ensures loadState == if old(loadState) == Idle then Idle else Loading
      ensures var e := Parse(line);
              screen == old(screen) +
                [if old(loadState) == Idle then UnexpectedLine else Loaded(NameOf(myUid, userGroup, e.uid), e.message)]
    {
      if loadState == Idle {
        screen := screen + [UnexpectedLine];
        return;
      }
      loadState := Loading;
      var e := Parse(line);
      var name := UNKNOWN_NAME;
      if e.uid == myUid {
        name := OWN_NAME;
      } else {
        var i := 0;
        while i < userGroup.count
          invariant i <= userGroup.count || i == 0
          invariant FindFrom(userGroup.members, userGroup.count, e.uid, i)
                 == FindMember(userGroup.members, userGroup.count, e.uid)
          decreases userGroup.count - i
        {
          if userGroup.members[i].uid == e.uid {
            name := userGroup.members[i].nick;
            break;
          }
          i := i + 1;
        }
      }
      screen := screen + [Loaded(name, e.message)];
    }

    /** The receive loop's body: the header's sender slot is resolved against the client's
        own group before the packet is dispatched. */
    method ReceivePacket(packet: Packet)
      requires Valid()
      requires packet.Relay? ==> packet.slot < MAX_GROUP_MEMBERS
      requires packet.GroupObj? ==> |packet.group.members| == MAX_GROUP_MEMBERS && packet.group.count <= MAX_GROUP_MEMBERS
      modifies this
      ensures Valid() && View() == Receive(old(View()), packet)
      ensures peer == old(userGroup).members[if packet.Relay? then packet.slot else 0]
      ensures packet.Relay? ==> screen == old(screen) + [From(peer, packet.code, packet.text)]
      ensures loadState == match packet
                           case LoadEnd => Idle
                           case HistoryLine(_) => if old(loadState) == Idle then Idle else Loading
                           case _ => old(loadState)
    {
      peer := userGroup.members[if packet.Relay? then packet.slot else 0];
      match packet
      case GroupObj(group) => GrpObjRecv(group);
      case Relay(code, slot, text) => screen := screen + [From(peer, code, text)];
      case HistoryLine(text) => LoadingMsgRecv(text);
      case LoadEnd => LoadMsgRecv();
      case HangmanNote(notice) => screen := screen + [Notification(notice)];
    }
  }
}
