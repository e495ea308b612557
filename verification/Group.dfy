/**
  Group rooms and the distribution of their keys.  Invitations travel over pairwise
  sessions, so what a member decrypts is what the creator encrypted.
 */
module Group {
  import opened Basics

  type Bytes = seq<bv8>
  type Jid = string

  const KEY_LENGTH: nat := 32
  const MIN_PREFIX: nat := 4

  datatype Room = Room(id: string, name: string, creator: Jid, key: Bytes, members: seq<Jid>)

  type Rooms = map<string, Room>

  // ---------------------------------------------------------------------------
  // The store.
  // ---------------------------------------------------------------------------

  function WithMember(members: seq<Jid>, jid: Jid): seq<Jid> {
    if jid in members then members else members + [jid]
  }

  function WithoutMember(members: seq<Jid>, jid: Jid): seq<Jid> {
    if members == [] then []
    else
      var rest, last := WithoutMember(members[..|members| - 1], jid), members[|members| - 1];
      if last == jid then rest else rest + [last]
  }

  /** Every room is filed under its own ID. */
  ghost predicate Filed(rooms: Rooms) {
    forall id :: id in rooms ==> rooms[id].id == id
  }

  predicate HasPrefix(id: string, ref: string) { |ref| >= MIN_PREFIX && ref <= id }

  /** `room` is the room that `ref` names: by full ID, or as the only match of a prefix. */
  ghost predicate Names(rooms: Rooms, ref: string, room: Room) {
    if ref in rooms then room == rooms[ref]
    else exists id :: id in rooms && HasPrefix(id, ref) && room == rooms[id]
                      && forall other :: other in rooms && HasPrefix(other, ref) ==> other == id
  }

  /**
    What a reference names: a full ID its room, else a prefix of four characters or more the
    only room it fits; a short or an ambiguous prefix names nothing.
   */
  lemma NamesMeaning(rooms: Rooms, ref: string)
    ensures ref in rooms ==> Names(rooms, ref, rooms[ref]) && forall r :: Names(rooms, ref, r) ==> r == rooms[ref]
    ensures ref !in rooms && |ref| < 4 ==> forall r :: !Names(rooms, ref, r)
    ensures forall a, b :: ref !in rooms && a in rooms && b in rooms && a != b && ref <= a && ref <= b ==>
              forall r :: !Names(rooms, ref, r)
    ensures forall a :: ref !in rooms && 4 <= |ref| && a in rooms && ref <= a ==>
              (forall b :: b in rooms && ref <= b ==> b == a) ==> Names(rooms, ref, rooms[a])
  {
  }

  class Store {
    var rooms: Rooms

    constructor ()
      ensures rooms == map[]
    {
      rooms := map[];
    }

    /** Create; ID and key come from the random source. */
    method Create(name: string, creator: Jid, id: string, key: Bytes) returns (ok: bool)
      requires Filed(rooms)
      modifies this
      ensures Filed(rooms) && (ok <==> name != "")
      ensures rooms == if ok then old(rooms)[id := Room(id, name, creator, key, [creator])] else old(rooms)
    {
      if name == "" {
        return false;
      }
      rooms := rooms[id := Room(id, name, creator, key, [creator])];
      return true;
    }

    method Add(room: Room) returns (ok: bool)
      requires Filed(rooms)
      modifies this
      ensures Filed(rooms)
      ensures ok <==> room.id != "" && |room.key| == 32
      ensures rooms == if ok then old(rooms)[room.id := room] else old(rooms)
    {
      if room.id == "" || |room.key| != KEY_LENGTH {
        return false;
      }
      rooms := rooms[room.id := room];
      return true;
    }

    /** Get: by full ID or unique prefix; the scan order does not matter. */
    method Get(ref: string) returns (room: Option<Room>)
      requires Filed(rooms)
      ensures room.Some? ==> Names(rooms, ref, room.value)
      ensures room.None? ==> forall r :: !Names(rooms, ref, r)
    {
      if ref in rooms {
        return Some(rooms[ref]);
      }
      var found: Option<string> := None;
      var todo := rooms.Keys;
      while todo != {}
        invariant todo <= rooms.Keys
        invariant found.Some? ==> found.value in rooms.Keys - todo && HasPrefix(found.value, ref)
        invariant forall id :: id in rooms.Keys - todo && HasPrefix(id, ref) ==> found == Some(id)
        decreases |todo|
      {
        var id :| id in todo;
        todo := todo - {id};
        if HasPrefix(id, ref) {
          if found.Some? {
            return None;
          }
          found := Some(id);
        }
      }
      if found.None? {
        return None;
      }
      return Some(rooms[found.value]);
    }

    method AddMember(id: string, jid: Jid) returns (ok: bool)
      requires Filed(rooms)
      modifies this
      ensures Filed(rooms) && (ok <==> id in old(rooms))
      ensures rooms ==
              if id in old(rooms) then old(rooms)[id := old(rooms)[id].(members := WithMember(old(rooms)[id].members, jid))]
              else old(rooms)
    {
      if id !in rooms {
        return false;
      }
      var r := rooms[id];
      for i := 0 to |r.members|
        invariant jid !in r.members[..i]
      {
        if r.members[i] == jid {
          assert rooms[id := r] == rooms;
          return true;
        }
      }
      rooms := rooms[id := r.(members := r.members + [jid])];
      return true;
    }

    method RemoveMember(id: string, jid: Jid) returns (ok: bool)
      requires Filed(rooms)
      modifies this
      ensures Filed(rooms) && (ok <==> id in old(rooms))
      ensures rooms ==
              if id in old(rooms) then old(rooms)[id := old(rooms)[id].(members := WithoutMember(old(rooms)[id].members, jid))]
              else old(rooms)
    {
      if id !in rooms {
        return false;
      }
      var r := rooms[id];
      var kept := [];
      for i := 0 to |r.members|
        invariant kept == WithoutMember(r.members[..i], jid)
      {
        assert r.members[..i + 1][..i] == r.members[..i];
        if r.members[i] != jid {
          kept := kept + [r.members[i]];
        }
      }
      assert r.members[..|r.members|] == r.members;
      rooms := rooms[id := r.(members := kept)];
      return true;
    }

    method Rekey(id: string, key: Bytes) returns (room: Option<Room>)
      requires Filed(rooms)
      modifies this
      ensures Filed(rooms)
      ensures room == if id in old(rooms) then Some(old(rooms)[id].(key := key)) else None
      ensures rooms == if id in old(rooms) then old(rooms)[id := old(rooms)[id].(key := key)] else old(rooms)
    {
      if id !in rooms {
        return None;
      }
      rooms := rooms[id := rooms[id].(key := key)];
      return Some(rooms[id]);
    }
  }

  // ---------------------------------------------------------------------------
  // Invitations.
  // ---------------------------------------------------------------------------

  /** What an invitation carries inside the encrypted body. */
  datatype Payload = Payload(id: string, name: string, key: Bytes, members: seq<Jid>)

  /** An invitation on its way to `dest`. */
  datatype Invite = Invite(dest: Jid, sender: Jid, payload: Payload)

  function PayloadOf(r: Room): Payload { Payload(r.id, r.name, r.key, r.members) }

  /** handleGroupInvite at `self`; invalid payloads are ignored. */
  function Invited(rooms: Rooms, self: Jid, sender: Jid, p: Payload): Rooms {
    if |p.key| != KEY_LENGTH || p.id == "" then rooms
    else rooms[p.id := Room(p.id, p.name, sender, p.key, WithMember(p.members, self))]
  }

  /** The group half of a node. */
  class Member {
    const jid: Jid
    const store: Store

    constructor (jid: Jid)
      ensures this.jid == jid && fresh(store) && store.rooms == map[]
    {
      this.jid := jid;
      store := new Store();
    }

    /** handleGroupInvite; nothing is received when the limiter or the decryption refuses the packet. */
    method HandleInvite(sender: Jid, received: Option<Payload>)
      requires Filed(store.rooms)
      modifies store
      ensures Filed(store.rooms)
      ensures store.rooms ==
              if received.None? then old(store.rooms) else Invited(old(store.rooms), jid, sender, received.value)
    {
      if received.None? {
        return;
      }
      var p := received.value;
      if |p.key| != KEY_LENGTH || p.id == "" {
        return;
      }
      var members := p.members;
      var found := false;
      for i := 0 to |members|
        invariant found <==> jid in members[..i]
      {
        if members[i] == jid {
          found := true;
        }
      }
      assert members[..|members|] == members;
      if !found {
        members := members + [jid];
      }
      var _ := store.Add(Room(p.id, p.name, sender, p.key, members));
    }

    /**
      InviteToRoom by full ID or unique prefix.  The payload is built before the invited
      member is added to the room, and nothing happens unless a session is ready.
     */
    method InviteToRoom(ref: string, member: Jid, ready: bool) returns (sent: Option<Invite>)
      requires Filed(store.rooms)
      modifies store
      ensures Filed(store.rooms)
      ensures sent.Some? ==> ready && exists r ::
                && Names(old(store.rooms), ref, r) && r.id in old(store.rooms)
                && sent.value == Invite(member, jid, PayloadOf(r))
                && store.rooms == old(store.rooms)[r.id := r.(members := WithMember(r.members, member))]
      ensures sent.None? ==>
                && store.rooms == old(store.rooms)
                && (ready ==> forall r :: !Names(old(store.rooms), ref, r))
    {
      var room := store.Get(ref);
      if room.None? || !ready {
        return None;
      }
      sent := Some(Invite(member, jid, PayloadOf(room.value)));
      var _ := store.AddMember(room.value.id, member);
    }

    /** RekeyRoom: rotates the key and invites every other member whose session is ready. */
    method RekeyRoom(id: string, key: Bytes, ready: Jid -> bool) returns (sent: seq<Invite>)
      requires Filed(store.rooms)
      modifies store
      ensures Filed(store.rooms)
      ensures id !in old(store.rooms) ==> sent == [] && store.rooms == old(store.rooms)
      ensures id in old(store.rooms) ==>
                && store.rooms == old(store.rooms)[id := old(store.rooms)[id].(key := key)]
                && sent == Rekeyed(jid, store.rooms[id], ready)
    {
      sent := [];
      var room := store.Rekey(id, key);
      if room.None? {
        return;
      }
      var members := room.value.members;
      ghost var rooms := store.rooms;
      for i := 0 to |members|
        invariant Filed(store.rooms) && store.rooms == rooms
        invariant sent == RekeyedTo(jid, rooms[id], members[..i], ready)
      {
        assert members[..i + 1][..i] == members[..i];
        if members[i] != jid {
          assert Names(rooms, id, rooms[id]);
          var invite := InviteToRoom(id, members[i], ready(members[i]));
          if invite.Some? {
            sent := sent + [invite.value];
          }
          assert store.rooms == rooms;
        }
      }
      assert members[..|members|] == members;
    }
  }

  function RekeyedTo(self: Jid, room: Room, members: seq<Jid>, ready: Jid -> bool): seq<Invite> {
    if members == [] then []
    else
      var m := members[|members| - 1];
      RekeyedTo(self, room, members[..|members| - 1], ready)
      + (if m != self && ready(m) then [Invite(m, self, PayloadOf(room))] else [])
  }

  /** The invitations of a rotation: one for each ready member but the creator. */
  function Rekeyed(self: Jid, room: Room, ready: Jid -> bool): seq<Invite> {
    RekeyedTo(self, room, room.members, ready)
  }

  // ---------------------------------------------------------------------------
  // Convergence.
  // ---------------------------------------------------------------------------

  /** Everybody's stores. */
  type Network = map<Jid, Rooms>

  function Delivered(net: Network, i: Invite): Network {
    if i.dest !in net then net
    else net[i.dest := Invited(net[i.dest], i.dest, i.sender, i.payload)]
  }

  function DeliveredAll(net: Network, arrivals: seq<Invite>): Network {
    if arrivals == [] then net
    else Delivered(DeliveredAll(net, arrivals[..|arrivals| - 1]), arrivals[|arrivals| - 1])
  }

  /** The invitations addressed to m, in their order. */
  function For(arrivals: seq<Invite>, m: Jid): seq<Invite> {
    if arrivals == [] then []
    else
      var last := arrivals[|arrivals| - 1];
      For(arrivals[..|arrivals| - 1], m) + (if last.dest == m then [last] else [])
  }

  lemma {:induction false} ForMeaning(arrivals: seq<Invite>, m: Jid)
    ensures forall i :: i in For(arrivals, m) <==> i in arrivals && i.dest == m
  {
    if arrivals != [] {
      ForMeaning(arrivals[..|arrivals| - 1], m);
      assert arrivals == arrivals[..|arrivals| - 1] + [arrivals[|arrivals| - 1]];
    }
  }

  lemma {:induction false} ForConcat(first: seq<Invite>, second: seq<Invite>, m: Jid)
    ensures For(first + second, m) == For(first, m) + For(second, m)
    decreases |second|
  {
    if second == [] {
      assert first + second == first;
    } else {
      var n := |second| - 1;
      assert (first + second)[..|first| + n] == first + second[..n];
      ForConcat(first, second[..n], m);
    }
  }

  /** An invitation to room `id` that its receiver accepts. */
  predicate Proper(i: Invite, id: string) {
    i.payload.id == id && id != "" && |i.payload.key| == KEY_LENGTH
  }

  /** Of the invitations to a room, the last one addressed to a member decides what it stores. */
  lemma {:induction false} LastArrivalWins(net: Network, arrivals: seq<Invite>, m: Jid, id: string)
    requires m in net && forall i :: i in For(arrivals, m) ==> Proper(i, id)
    ensures m in DeliveredAll(net, arrivals)
    ensures var mine := For(arrivals, m);
            DeliveredAll(net, arrivals)[m] ==
            if mine == [] then net[m]
            else Invited(net[m], m, mine[|mine| - 1].sender, mine[|mine| - 1].payload)
  {
    if arrivals != [] {
      var init, last := arrivals[..|arrivals| - 1], arrivals[|arrivals| - 1];
      LastArrivalWins(net, init, m, id);
      if last.dest == m {
        assert last in For(arrivals, m);
        var before := For(init, m);
        if before != [] {
          assert before[|before| - 1] in For(arrivals, m);
        }
      }
    }
  }

  lemma {:induction false} RekeyedMeaning(self: Jid, room: Room, members: seq<Jid>, ready: Jid -> bool)
    ensures forall i :: i in RekeyedTo(self, room, members, ready) <==>
              && i.dest in members && i.dest != self && ready(i.dest)
              && i == Invite(i.dest, self, PayloadOf(room))
  {
    if members != [] {
      RekeyedMeaning(self, room, members[..|members| - 1], ready);
      assert members == members[..|members| - 1] + [members[|members| - 1]];
    }
  }

  // ---------------------------------------------------------------------------
  // Runs of one inviter: invitations and rotations.
  // ---------------------------------------------------------------------------

  /** An invitation of one member, or a rotation; `ready` tells whose session is up. */
  datatype Action = Ask(member: Jid, online: bool) | Rotate(key: Bytes, ready: Jid -> bool)

  /** The inviter's own room afterwards. */
  function Acted(room: Room, a: Action): Room {
    match a
    case Ask(member, online) => if online then room.(members := WithMember(room.members, member)) else room
    case Rotate(key, _) => room.(key := key)
  }

  function SentBy(self: Jid, room: Room, a: Action): seq<Invite> {
    match a
    case Ask(member, online) => if online then [Invite(member, self, PayloadOf(room))] else []
    case Rotate(key, ready) => Rekeyed(self, room.(key := key), ready)
  }

  /** The inviter's room after n actions. */
  function RoomAt(room: Room, actions: seq<Action>, n: nat): Room
    requires n <= |actions|
  {
    if n == 0 then room else Acted(RoomAt(room, actions, n - 1), actions[n - 1])
  }

  /** Every invitation the first n actions send. */
  function Log(self: Jid, room: Room, actions: seq<Action>, n: nat): seq<Invite>
    requires n <= |actions|
  {
    if n == 0 then []
    else Log(self, room, actions, n - 1) + SentBy(self, RoomAt(room, actions, n - 1), actions[n - 1])
  }

  /** The action writes to m. */
  predicate Reaches(self: Jid, room: Room, a: Action, m: Jid) {
    match a
    case Ask(member, online) => member == m && online
    case Rotate(_, ready) => m in room.members && m != self && ready(m)
  }

  /** The inviter's room when one of the first n actions last wrote to m. */
  function Heard(self: Jid, room: Room, actions: seq<Action>, m: Jid, n: nat): Option<Room>
    requires n <= |actions|
  {
    if n == 0 then None
    else if Reaches(self, RoomAt(room, actions, n - 1), actions[n - 1], m) then Some(RoomAt(room, actions, n))
    else Heard(self, room, actions, m, n - 1)
  }

  /** What m makes of the invitation is the room r. */
  predicate Carries(i: Invite, self: Jid, m: Jid, r: Room) {
    i.dest == m && i.sender == self && i.payload == PayloadOf(r.(members := i.payload.members))
    && WithMember(i.payload.members, m) == r.members
  }

  lemma SentReaches(self: Jid, room: Room, a: Action, m: Jid)
    requires m != self
    ensures For(SentBy(self, room, a), m) != [] <==> Reaches(self, room, a, m)
    ensures forall i :: i in For(SentBy(self, room, a), m) ==> Carries(i, self, m, Acted(room, a))
  {
    var mine := For(SentBy(self, room, a), m);
    ForMeaning(SentBy(self, room, a), m);
    if mine != [] {
      assert mine[0] in mine;
    }
    if a.Rotate? {
      var rotated := room.(key := a.key);
      RekeyedMeaning(self, rotated, room.members, a.ready);
      if Reaches(self, room, a, m) {
        assert Invite(m, self, PayloadOf(rotated)) in mine;
      }
    } else if Reaches(self, room, a, m) {
      assert Invite(m, self, PayloadOf(room)) in SentBy(self, room, a);
    }
  }

  /** All keys have the length that members accept. */
  predicate WellKeyed(room: Room, actions: seq<Action>) {
    && room.id != "" && |room.key| == KEY_LENGTH
    && forall k :: 0 <= k < |actions| && actions[k].Rotate? ==> |actions[k].key| == KEY_LENGTH
  }

  lemma {:induction false} RoomStaysKeyed(room: Room, actions: seq<Action>, n: nat)
    requires WellKeyed(room, actions) && n <= |actions|
    ensures RoomAt(room, actions, n).id == room.id && |RoomAt(room, actions, n).key| == KEY_LENGTH
  {
    if n > 0 {
      RoomStaysKeyed(room, actions, n - 1);
    }
  }

  /** What m got so far: proper invitations, the last of which carries the room r. */
  ghost predicate Informs(sent: seq<Invite>, self: Jid, m: Jid, id: string, r: Option<Room>) {
    && (sent == [] <==> r.None?)
    && (forall i :: i in sent ==> Proper(i, id))
    && (sent != [] ==> Carries(sent[|sent| - 1], self, m, r.value))
  }

  lemma InformsMore(before: seq<Invite>, now: seq<Invite>, self: Jid, m: Jid, id: string, r: Option<Room>, r': Room)
    requires Informs(before, self, m, id, r) && r'.id == id && id != "" && |r'.key| == KEY_LENGTH
    requires forall i :: i in now ==> Carries(i, self, m, r')
    ensures Informs(before + now, self, m, id, if now != [] then Some(r') else r)
  {
    if now == [] {
      assert before + now == before;
    } else {
      assert now[|now| - 1] in now;
    }
  }

  /** The last invitation of the run to m carries the room as it was then. */
  lemma {:induction false} LastSentCarries(self: Jid, room: Room, actions: seq<Action>, m: Jid, n: nat)
    requires m != self && WellKeyed(room, actions) && n <= |actions|
    ensures Informs(For(Log(self, room, actions, n), m), self, m, room.id, Heard(self, room, actions, m, n))
  {
    if n > 0 {
      var r, a := RoomAt(room, actions, n - 1), actions[n - 1];
      LastSentCarries(self, room, actions, m, n - 1);
      SentReaches(self, r, a, m);
      RoomStaysKeyed(room, actions, n);
      ForConcat(Log(self, room, actions, n - 1), SentBy(self, r, a), m);
      InformsMore(For(Log(self, room, actions, n - 1), m), For(SentBy(self, r, a), m), self, m, room.id,
                  Heard(self, room, actions, m, n - 1), RoomAt(room, actions, n));
    }
  }

  /**
    What a member stores after a run: the inviter's room as it was when the run last wrote
    to the member, with the inviter as its creator.  The invitations may arrive in any
    order that keeps the order of each connection.
   */
  lemma MemberAfterRun(net: Network, self: Jid, room: Room, actions: seq<Action>, arrivals: seq<Invite>, m: Jid)
    requires m in net && m != self && WellKeyed(room, actions)
    requires For(arrivals, m) == For(Log(self, room, actions, |actions|), m)
    ensures m in DeliveredAll(net, arrivals)
    ensures var heard := Heard(self, room, actions, m, |actions|);
            DeliveredAll(net, arrivals)[m] ==
            if heard.None? then net[m] else net[m][room.id := heard.value.(creator := self)]
  {
    LastSentCarries(self, room, actions, m, |actions|);
    LastArrivalWins(net, arrivals, m, room.id);
    var sent := For(arrivals, m);
    if sent != [] {
      assert sent[|sent| - 1] in sent;
    }
  }

  /** Action k is the last one of the run that writes to m. */
  predicate LastReach(self: Jid, room: Room, actions: seq<Action>, m: Jid, k: nat) {
    && k < |actions| && Reaches(self, RoomAt(room, actions, k), actions[k], m)
    && forall j :: k < j < |actions| ==> !Reaches(self, RoomAt(room, actions, j), actions[j], m)
  }

  lemma {:induction false} HeardAtLastReach(self: Jid, room: Room, actions: seq<Action>, m: Jid, k: nat, n: nat)
    requires LastReach(self, room, actions, m, k) && k < n <= |actions|
    ensures Heard(self, room, actions, m, n) == Some(RoomAt(room, actions, k + 1))
    decreases n
  {
    if k + 1 < n {
      HeardAtLastReach(self, room, actions, m, k, n - 1);
    }
  }

  /** The action brings someone new into the room. */
  predicate Newcomer(room: Room, a: Action) { a.Ask? && a.online && a.member !in room.members }

  /** How many of the actions k..n-1 brought someone new. */
  function Newcomers(room: Room, actions: seq<Action>, k: nat, n: nat): nat
    requires k <= n <= |actions|
    decreases n
  {
    if k == n then 0
    else
      Newcomers(room, actions, k, n - 1)
      + (if Newcomer(RoomAt(room, actions, n - 1), actions[n - 1]) then 1 else 0)
  }

  lemma ActedMembers(room: Room, a: Action)
    ensures room.members <= Acted(room, a).members
    ensures |Acted(room, a).members| == |room.members| + (if Newcomer(room, a) then 1 else 0)
  {
  }

  lemma {:induction false} MembersGrow(room: Room, actions: seq<Action>, k: nat, n: nat)
    requires k <= n <= |actions|
    ensures RoomAt(room, actions, k).members <= RoomAt(room, actions, n).members
    ensures |RoomAt(room, actions, n).members| ==
            |RoomAt(room, actions, k).members| + Newcomers(room, actions, k, n)
    decreases n
  {
    if k < n {
      MembersGrow(room, actions, k, n - 1);
      ActedMembers(RoomAt(room, actions, n - 1), actions[n - 1]);
    }
  }

  /** A rotation never reuses a key the room had before. */
  predicate NewKeys(room: Room, actions: seq<Action>) {
    forall i, j :: 0 <= i <= j < |actions| && actions[j].Rotate? ==> RoomAt(room, actions, i).key != actions[j].key
  }

  /** How many of the actions k..n-1 rotated the key. */
  function Rotations(actions: seq<Action>, k: nat, n: nat): nat
    requires k <= n <= |actions|
    decreases n
  {
    if k == n then 0 else Rotations(actions, k, n - 1) + (if actions[n - 1].Rotate? then 1 else 0)
  }

  lemma {:induction false} KeySameIff(room: Room, actions: seq<Action>, k: nat, n: nat)
    requires NewKeys(room, actions) && k <= n <= |actions|
    ensures RoomAt(room, actions, n).key == RoomAt(room, actions, k).key <==> Rotations(actions, k, n) == 0
    decreases n
  {
    if k < n {
      KeySameIff(room, actions, k, n - 1);
    }
  }

  /**
    Convergence, exactly.  Let an inviter run through any invitations and rotations, all
    processed, and let action k be the last that wrote to a member.  The member's list is
    a prefix of the inviter's and lacks exactly those invited for the first time after k;
    so the lists are equal if and only if there are none.  The keys are equal if and only
    if no rotation followed k.
   */
  lemma ConvergesIff(
    net: Network, self: Jid, room: Room, actions: seq<Action>, arrivals: seq<Invite>, m: Jid, k: nat)
    requires m in net && m != self && WellKeyed(room, actions) && NewKeys(room, actions)
    requires For(arrivals, m) == For(Log(self, room, actions, |actions|), m)
    requires LastReach(self, room, actions, m, k)
    ensures m in DeliveredAll(net, arrivals) && room.id in DeliveredAll(net, arrivals)[m]
    ensures var mine, theirs, n := RoomAt(room, actions, |actions|), DeliveredAll(net, arrivals)[m][room.id], |actions|;
            && m in theirs.members && theirs.members <= mine.members
            && |mine.members| == |theirs.members| + Newcomers(room, actions, k + 1, n)
            && (theirs.members == mine.members <==> Newcomers(room, actions, k + 1, n) == 0)
            && (theirs.key == mine.key <==> Rotations(actions, k + 1, n) == 0)
  {
    MemberHears(net, self, room, actions, arrivals, m, k);
    RoomSince(room, actions, k + 1);
  }

  lemma RoomSince(room: Room, actions: seq<Action>, k: nat)
    requires NewKeys(room, actions) && k <= |actions|
    ensures var now, then_, n := RoomAt(room, actions, |actions|), RoomAt(room, actions, k), |actions|;
            && then_.members <= now.members
            && |now.members| == |then_.members| + Newcomers(room, actions, k, n)
            && (then_.members == now.members <==> Newcomers(room, actions, k, n) == 0)
            && (then_.key == now.key <==> Rotations(actions, k, n) == 0)
  {
    MembersGrow(room, actions, k, |actions|);
    KeySameIff(room, actions, k, |actions|);
  }

  /** An input that does not converge: whoever was invited first never hears of the second. */
  lemma FirstInviteeLags(net: Network, self: Jid, room: Room, first: Jid, second: Jid, arrivals: seq<Invite>)
    requires first in net && first != self && first != second && second !in room.members
    requires room.id != "" && |room.key| == KEY_LENGTH
    requires For(arrivals, first) == For(Log(self, room, [Ask(first, true), Ask(second, true)], 2), first)
    ensures var mine := RoomAt(room, [Ask(first, true), Ask(second, true)], 2);
            && first in DeliveredAll(net, arrivals) && room.id in DeliveredAll(net, arrivals)[first]
            && second in mine.members && second !in DeliveredAll(net, arrivals)[first][room.id].members
  {
    var actions := [Ask(first, true), Ask(second, true)];
    assert RoomAt(room, actions, 1) == Acted(room, actions[0]);
    assert LastReach(self, room, actions, first, 0);
    MemberHears(net, self, room, actions, arrivals, first, 0);
  }

  lemma MemberHears(
    net: Network, self: Jid, room: Room, actions: seq<Action>, arrivals: seq<Invite>, m: Jid, k: nat)
    requires m in net && m != self && WellKeyed(room, actions)
    requires For(arrivals, m) == For(Log(self, room, actions, |actions|), m)
    requires LastReach(self, room, actions, m, k)
    ensures m in DeliveredAll(net, arrivals) && m in RoomAt(room, actions, k + 1).members
    ensures DeliveredAll(net, arrivals)[m] == net[m][room.id := RoomAt(room, actions, k + 1).(creator := self)]
  {
    MemberAfterRun(net, self, room, actions, arrivals, m);
    HeardAtLastReach(self, room, actions, m, k, |actions|);
    ReachedIsMember(self, RoomAt(room, actions, k), actions[k], m);
  }

  lemma ReachedIsMember(self: Jid, room: Room, a: Action, m: Jid)
    requires Reaches(self, room, a, m)
    ensures m in Acted(room, a).members
  {
  }

  // ---------------------------------------------------------------------------
  // One rotation, by anybody.
  // ---------------------------------------------------------------------------

  /** After some of a rotation's invitations: who got one agrees with the room, the others are as before. */
  lemma RotationArrives(
    net: Network, self: Jid, room: Room, ready: Jid -> bool, arrivals: seq<Invite>, m: Jid)
    requires room.id != "" && |room.key| == KEY_LENGTH && m in net
    requires forall i :: i in arrivals ==> i in Rekeyed(self, room, ready)
    ensures m in DeliveredAll(net, arrivals)
    ensures DeliveredAll(net, arrivals)[m] ==
            if exists i :: i in arrivals && i.dest == m then net[m][room.id := room.(creator := self)] else net[m]
  {
    ForMeaning(arrivals, m);
    RekeyedMeaning(self, room, room.members, ready);
    LastArrivalWins(net, arrivals, m, room.id);
    var mine := For(arrivals, m);
    if mine != [] {
      assert mine[|mine| - 1] in mine;
      assert WithMember(room.members, m) == room.members;
    }
  }

  /**
    Rotation.  `self` rotates the key; its invitations arrive in any order, each at least
    once.  Then a member's room equals the rotator's in key and members exactly if its
    session was ready, anybody else's store is untouched, and the room keeps its members.
    The rooms are equal altogether exactly if the rotator is the room's creator.
   */
  lemma RotationConverges(
    net: Network, self: Jid, before: Room, key: Bytes, ready: Jid -> bool, arrivals: seq<Invite>, m: Jid)
    requires before.id != "" && |key| == KEY_LENGTH
    requires m in net && m != self
    requires before.id in net[m] ==> net[m][before.id].key != key
    requires forall i :: i in arrivals <==> i in Rekeyed(self, before.(key := key), ready)
    ensures var room, net' := before.(key := key), DeliveredAll(net, arrivals);
            && m in net'
            && (before.id in net'[m] && net'[m][before.id] == room.(creator := self) <==> m in before.members && ready(m))
            && (before.id in net'[m] && net'[m][before.id] == room <==>
                  m in before.members && ready(m) && before.creator == self)
            && (!(m in before.members && ready(m)) ==> net'[m] == net[m])
  {
    var room := before.(key := key);
    RotationArrives(net, self, room, ready, arrivals, m);
    RekeyedMeaning(self, room, room.members, ready);
    if m in before.members && ready(m) {
      assert Invite(m, self, PayloadOf(room)) in arrivals;
    } else {
      forall i | i in arrivals ensures i.dest != m {
        assert i in Rekeyed(self, room, ready);
      }
    }
  }

  /** The rotations that cross, as two rotators sent them. */
  ghost predicate Crossing(
    arrivals: seq<Invite>, a: Jid, roomA: Room, readyA: Jid -> bool, b: Jid, roomB: Room, readyB: Jid -> bool)
  {
    forall i :: i in arrivals <==> i in Rekeyed(a, roomA, readyA) || i in Rekeyed(b, roomB, readyB)
  }

  /** A rotator only hears of the other's rotation. */
  lemma RotatorTakesOther(
    net: Network, a: Jid, roomA: Room, readyA: Jid -> bool, b: Jid, roomB: Room, readyB: Jid -> bool, arrivals: seq<Invite>)
    requires a != b && a in net && roomB.id != "" && |roomB.key| == KEY_LENGTH
    requires a in roomB.members && readyB(a) && Crossing(arrivals, a, roomA, readyA, b, roomB, readyB)
    ensures a in DeliveredAll(net, arrivals)
    ensures DeliveredAll(net, arrivals)[a] == net[a][roomB.id := roomB.(creator := b)]
  {
    RekeyedMeaning(a, roomA, roomA.members, readyA);
    RekeyedMeaning(b, roomB, roomB.members, readyB);
    ForMeaning(arrivals, a);
    var other := Invite(a, b, PayloadOf(roomB));
    assert forall i :: i in For(arrivals, a) ==> i == other;
    assert other in arrivals && other in For(arrivals, a);
    LastArrivalWins(net, arrivals, a, roomB.id);
    var mine := For(arrivals, a);
    assert mine[|mine| - 1] in mine;
    assert WithMember(roomB.members, a) == roomB.members;
  }

  /**
    Crossing rotations do not converge.  Two members rotate the same room before either
    hears of the other; whatever the order of arrival, they end up with each other's key,
    and so agree exactly if the two new keys were the same.
   */
  lemma CrossingRotationsSwapKeys(
    net: Network, a: Jid, roomA: Room, readyA: Jid -> bool, b: Jid, roomB: Room, readyB: Jid -> bool, arrivals: seq<Invite>)
    requires a != b && a in net && b in net && roomA.id == roomB.id != ""
    requires |roomA.key| == KEY_LENGTH && |roomB.key| == KEY_LENGTH
    requires b in roomA.members && readyA(b) && a in roomB.members && readyB(a)
    requires Crossing(arrivals, a, roomA, readyA, b, roomB, readyB)
    ensures var net', id := DeliveredAll(net, arrivals), roomA.id;
            && a in net' && b in net' && id in net'[a] && id in net'[b]
            && net'[a][id].key == roomB.key && net'[b][id].key == roomA.key
            && (net'[a][id].key == net'[b][id].key <==> roomA.key == roomB.key)
  {
    RotatorTakesOther(net, a, roomA, readyA, b, roomB, readyB, arrivals);
    assert Crossing(arrivals, b, roomB, readyB, a, roomA, readyA);
    RotatorTakesOther(net, b, roomB, readyB, a, roomA, readyA, arrivals);
  }

  lemma {:induction false} WithoutMemberMeaning(members: seq<Jid>, jid: Jid)
    ensures forall m :: m in WithoutMember(members, jid) <==> m in members && m != jid
  {
    if members != [] {
      WithoutMemberMeaning(members[..|members| - 1], jid);
      assert members == members[..|members| - 1] + [members[|members| - 1]];
    }
  }

  /** Removal keeps the order of the others: it works on each part of a list by itself. */
  lemma {:induction false} WithoutMemberConcat(first: seq<Jid>, second: seq<Jid>, jid: Jid)
    ensures WithoutMember(first + second, jid) == WithoutMember(first, jid) + WithoutMember(second, jid)
    decreases |second|
  {
    if second == [] {
      assert first + second == first;
    } else {
      var n := |second| - 1;
      assert (first + second)[..|first| + n] == first + second[..n];
      WithoutMemberConcat(first, second[..n], jid);
    }
  }

  /** Someone who was removed before a rotation keeps what they had and never sees the new key. */
  lemma RemovedKeepsOldKey(
    net: Network, self: Jid, before: Room, removed: Jid, key: Bytes, ready: Jid -> bool, arrivals: seq<Invite>)
    requires before.id != "" && |key| == KEY_LENGTH
    requires removed in net && removed != self
    requires before.id in net[removed] ==> net[removed][before.id].key != key
    requires var rest := before.(members := WithoutMember(before.members, removed), key := key);
             forall i :: i in arrivals <==> i in Rekeyed(self, rest, ready)
    ensures removed in DeliveredAll(net, arrivals) && DeliveredAll(net, arrivals)[removed] == net[removed]
  {
    WithoutMemberMeaning(before.members, removed);
    RotationConverges(net, self, before.(members := WithoutMember(before.members, removed)), key, ready, arrivals, removed);
  }
}
