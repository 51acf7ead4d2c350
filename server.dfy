/** The socket handlers of backend/server.js as one state machine. The persisted
    poll list (what `readData`/`writeData` load and save), the tracker of active
    polls and the three participant structures are fields of one object; each
    handler is one atomic method; what the server emits to its clients is kept
    in a ghost log. */
module Server {
  import opened Wrappers
  import opened Polls
  import OrderedSet

  /** Socket.IO connection ids are never empty. */
  type SocketId = s: string | s != [] witness "0"

  /** An entry of `activePolls`: the poll as created and whether its auto-close
      timer was scheduled (server.js keeps the timer handle, or null). */
  datatype ActivePoll = ActivePoll(poll: Poll, timerScheduled: bool)

  /** What the server sends. All but `KickedOut` go to every connection. */
  datatype Event =
    | PollCreated(poll: Poll)
    | PollResults(tally: map<string, nat>)
    | ParticipantsUpdate(names: seq<string>)
    | KickedOut(socket: SocketId)

  /** Which way `submitAnswer` went. The JavaScript handler returns nothing; it only
      logs the two not-found cases. */
  datatype SubmitOutcome =
    | MissingField
    | PollNotFound
    | PollClosed
    | OptionNotFound
    | Counted(tally: map<string, nat>)

  /** A string payload field that JavaScript treats as true: the falsy strings are
      exactly a missing field and "". */
  predicate Truthy(s: Option<string>) {
    s.Some? && s.value != ""
  }

  /** `guest_${socket.id.slice(0,6)}`. */
  function GuestName(socketId: SocketId): (name: string)
    ensures |name| == 6 + (if |socketId| < 6 then |socketId| else 6)
    ensures name[..6] == "guest_" && socketId[..|name| - 6] == name[6..]
  {
    "guest_" + (if |socketId| < 6 then socketId else socketId[..6])
  }

  /** `payload?.username || guest name`: the name a joining socket is bound to. */
  function JoinName(requested: Option<string>, socketId: SocketId): (name: string)
    ensures name != ""
    ensures Truthy(requested) ==> name == requested.value
    ensures !Truthy(requested) ==> name == GuestName(socketId)
  {
    if Truthy(requested) then requested.value else GuestName(socketId)
  }

  /** The `forEach` loop that fills `voteMap` with `{ [text]: votes }`. */
  method ComputeTally(opts: seq<PollOption>) returns (voteMap: map<string, nat>)
    ensures voteMap == Tally(opts)
  {
    voteMap := map[];
    var i := 0;
    while i < |opts|
      invariant 0 <= i <= |opts|
      invariant voteMap == Tally(opts[..i])
    {
      voteMap := SetKey(voteMap, opts[i].text, opts[i].votes);
      assert opts[..i + 1][..i] == opts[..i];
      i := i + 1;
    }
    assert opts[..i] == opts;
  }

  /** The poll part of the server's invariant. */
  ghost predicate PollsConsistent(store: seq<Poll>, activePolls: map<string, ActivePoll>) {
    && UniqueIds(store)
    && activePolls.Keys <= OpenIds(store)
    && (forall id :: id in activePolls ==>
          activePolls[id].poll.id == id && activePolls[id].timerScheduled == (activePolls[id].poll.timer > 0))
  }

  /** The participant part of the server's invariant. */
  ghost predicate ParticipantsConsistent(socketToUsername: map<SocketId, string>,
                                         usernameToSocketId: map<string, SocketId>,
                                         participants: seq<string>) {
    && OrderedSet.NoDuplicates(participants)
    && OrderedSet.Elements(participants) == usernameToSocketId.Keys
    && (forall s :: s in socketToUsername ==> socketToUsername[s] != "")
  }

  /** Appending a new open poll under a fresh id and tracking it keeps the poll
      invariant. */
  lemma CreateKeepsConsistent(store: seq<Poll>, activePolls: map<string, ActivePoll>, poll: Poll)
    requires PollsConsistent(store, activePolls)
    requires FindPoll(store, poll.id).None? && !poll.closed
    ensures PollsConsistent(store + [poll], activePolls[poll.id := ActivePoll(poll, poll.timer > 0)])
    ensures FindPoll(store + [poll], poll.id) == Some(|store|)
  {
    OpenIdsAppend(store, poll);
    AppendFreshId(store, poll);
  }

  /** Removing a name from the participants and from the name-to-socket map, and
      possibly unbinding sockets, keeps the participant invariant. */
  lemma RemoveNameKeepsConsistent(socketToUsername: map<SocketId, string>,
                                  usernameToSocketId: map<string, SocketId>,
                                  participants: seq<string>, name: string,
                                  unbound: set<SocketId>)
    requires ParticipantsConsistent(socketToUsername, usernameToSocketId, participants)
    ensures ParticipantsConsistent(socketToUsername - unbound, usernameToSocketId - {name},
                                   OrderedSet.Delete(participants, name))
  {
  }

  /** Closing a tracked poll's stored record and no longer tracking it keeps the poll
      invariant; a tracked poll is always found in the store, still open. */
  lemma CloseKeepsConsistent(store: seq<Poll>, activePolls: map<string, ActivePoll>, pollId: string)
    requires PollsConsistent(store, activePolls) && pollId in activePolls
    ensures FindPoll(store, pollId).Some? && !store[FindPoll(store, pollId).value].closed
    ensures var i := FindPoll(store, pollId).value;
      var after := store[i := store[i].(closed := true)];
      PollsConsistent(after, activePolls - {pollId}) && FindPoll(after, pollId) == Some(i)
  {
    assert pollId in OpenIds(store);
    var j :| 0 <= j < |store| && !store[j].closed && store[j].id == pollId;
    var i := FindPoll(store, pollId).value;
    assert i == j;
    var after := store[i := store[i].(closed := true)];
    OpenIdsUpdate(store, i, after[i]);
    assert after[i].id == pollId;
  }

  class PollServer {
    /** The ids of the sockets Socket.IO currently holds open (`io.sockets.sockets`). */
    var connected: set<SocketId>
    /** The polls of the data file, in the order they were created. */
    var store: seq<Poll>
    /** `activePolls`: pollId -> the poll as created and its timer. */
    var activePolls: map<string, ActivePoll>
    var socketToUsername: map<SocketId, string>
    var usernameToSocketId: map<string, SocketId>
    /** `participants`, the names currently in the chat, in insertion order. */
    var participants: seq<string>
    /** Everything emitted so far, oldest first. */
    ghost var events: seq<Event>

    /** Only polls whose stored record is open are tracked as active, and poll ids
        are unique; the participant set holds exactly the names that have a socket
        bound to them, bound names are never empty, and only connected sockets have
        a name. */
    ghost predicate Valid()
      reads this
    {
      && PollsConsistent(store, activePolls)
      && ParticipantsConsistent(socketToUsername, usernameToSocketId, participants)
      && socketToUsername.Keys <= connected
    }

    /** The server as it starts: the data file holds whatever earlier runs saved
        (`initial`), while every in-memory map starts empty, so no stored poll is
        tracked as active and none has a timer. */
    constructor (initial: seq<Poll>)
      requires UniqueIds(initial)
      ensures Valid()
      ensures store == initial && activePolls == map[] && events == [] && connected == {}
      ensures socketToUsername == map[] && usernameToSocketId == map[] && participants == []
    {
      store := initial;
      activePolls := map[];
      connected := {};
      socketToUsername := map[];
      usernameToSocketId := map[];
      participants := [];
      events := [];
    }

    /** `io.on("connection")`: a client opens a socket under a new id. */
    method Connect(socketId: SocketId)
      requires Valid() && socketId !in connected
      modifies this`connected
      ensures Valid()
      ensures connected == old(connected) + {socketId}
    {
      connected := connected + {socketId};
    }

    /** `joinChat`: binds the socket to the name and the name to the socket, adds the
        name to the participants and broadcasts the list. A later join under a taken
        name takes the name over; the earlier socket keeps its own binding. */
    method JoinChat(socketId: SocketId, requested: Option<string>)
      requires Valid() && socketId in connected
      modifies this`socketToUsername, this`usernameToSocketId, this`participants, this`events
      ensures Valid()
      ensures var name := JoinName(requested, socketId);
        && socketToUsername == old(socketToUsername)[socketId := name]
        && usernameToSocketId == old(usernameToSocketId)[name := socketId]
        && participants == OrderedSet.Add(old(participants), name)
        && name in participants
        && events == old(events) + [ParticipantsUpdate(participants)]
    {
      var name := JoinName(requested, socketId);
      socketToUsername := socketToUsername[socketId := name];
      usernameToSocketId := usernameToSocketId[name := socketId];
      participants := OrderedSet.Add(participants, name);
      events := events + [ParticipantsUpdate(participants)];
    }

    /** `createPoll`: builds the poll record, appends it to the data file, registers
        it as active, broadcasts it and, when its timer is positive, schedules the
        auto-close (`CloseOnTimer`). `pollId` and `createdAt` stand for `uuidv4()`
        and the clock, `timer` for `Number(pollData.timer)`. */
    method CreatePoll(pollId: string, question: string, options: Option<seq<OptionInput>>,
                      timer: NumberValue, teacherUsername: string, createdAt: string)
      requires Valid()
      requires FindPoll(store, pollId).None?
      modifies this`store, this`activePolls, this`events
      ensures Valid()
      ensures var poll := NewPoll(pollId, question, options, timer, teacherUsername, createdAt);
        && store == old(store) + [poll]
        && activePolls == old(activePolls)[pollId := ActivePoll(poll, poll.timer > 0)]
        && events == old(events) + [PollCreated(poll)]
      ensures FindPoll(store, pollId) == Some(|old(store)|)
    {
      var poll := NewPoll(pollId, question, options, timer, teacherUsername, createdAt);
      CreateKeepsConsistent(store, activePolls, poll);
      store := store + [poll];
      activePolls := activePolls[pollId := ActivePoll(poll, false)];
      events := events + [PollCreated(poll)];
      if poll.timer > 0 {
        activePolls := activePolls[pollId := ActivePoll(poll, true)];
      }
    }

    /** `submitAnswer`: ignores a payload missing a field, an unknown poll, a closed
        poll and a text no option has; otherwise adds one vote to the first option
        with exactly that text, saves, and broadcasts the poll's tally. */
    method SubmitAnswer(username: Option<string>, option: Option<string>, pollId: Option<string>)
      returns (outcome: SubmitOutcome)
      requires Valid()
      modifies this`store, this`events
      ensures Valid()
      ensures !(Truthy(username) && Truthy(option) && Truthy(pollId)) ==> outcome == MissingField
      ensures Truthy(username) && Truthy(option) && Truthy(pollId) ==>
        match FindPoll(old(store), pollId.value)
        case None => outcome == PollNotFound
        case Some(i) =>
          if old(store)[i].closed then outcome == PollClosed
          else if FindOption(old(store)[i].options, option.value).None? then outcome == OptionNotFound
          else outcome.Counted?
      ensures !outcome.Counted? ==> store == old(store) && events == old(events)
      ensures outcome.Counted? ==>
        && Truthy(pollId) && Truthy(option)
        && FindPoll(old(store), pollId.value).Some?
        && var i := FindPoll(old(store), pollId.value).value;
          && FindOption(old(store)[i].options, option.value).Some?
          && var k := FindOption(old(store)[i].options, option.value).value;
            && store == old(store)[i := CastVote(old(store)[i], k)]
            && outcome.tally == Tally(store[i].options)
            && events == old(events) + [PollResults(outcome.tally)]
    {
      if !(Truthy(username) && Truthy(option) && Truthy(pollId)) {
        return MissingField;
      }
      var found := FindPoll(store, pollId.value);
      if found.None? {
        return PollNotFound;
      }
      var i := found.value;
      if store[i].closed {
        return PollClosed;
      }
      var opt := FindOption(store[i].options, option.value);
      if opt.None? {
        return OptionNotFound;
      }
      var voted := CastVote(store[i], opt.value);
      OpenIdsUpdate(store, i, voted);
      store := store[i := voted];
      var voteMap := ComputeTally(voted.options);
      events := events + [PollResults(voteMap)];
      outcome := Counted(voteMap);
    }

    /** The `setTimeout` callback of `createPoll`, run when the poll's timer expires:
        nothing if the poll is no longer active; otherwise broadcasts the stored
        tally as the final result, marks the stored poll closed and stops tracking
        it. Only a poll whose timer was scheduled gets this callback. */
    method CloseOnTimer(pollId: string)
      requires Valid()
      requires pollId in activePolls ==> activePolls[pollId].timerScheduled
      modifies this`store, this`activePolls, this`events
      ensures Valid()
      ensures pollId !in old(activePolls) ==>
        store == old(store) && activePolls == old(activePolls) && events == old(events)
      ensures pollId in old(activePolls) ==>
        && FindPoll(old(store), pollId).Some?
        && var i := FindPoll(old(store), pollId).value;
          && !old(store)[i].closed
          && store == old(store)[i := old(store)[i].(closed := true)]
          && activePolls == old(activePolls) - {pollId}
          && events == old(events) + [PollResults(Tally(old(store)[i].options))]
      ensures pollId !in activePolls
      ensures pollId in old(activePolls) ==>
        FindPoll(store, pollId).Some? && store[FindPoll(store, pollId).value].closed
    {
      if pollId !in activePolls {
        return;
      }
      var state := activePolls[pollId];
      CloseKeepsConsistent(store, activePolls, pollId);
      var found := FindPoll(store, pollId);
      var opts := if found.Some? then store[found.value].options else state.poll.options;
      var voteMap := ComputeTally(opts);
      events := events + [PollResults(voteMap)];
      if found.Some? {
        var i := found.value;
        store := store[i := store[i].(closed := true)];
      }
      activePolls := activePolls - {pollId};
    }

    /** `kickOut`: when the name is bound, tells its socket it was removed and, if
        that socket is still connected, disconnects it, which runs its `disconnect`
        handler (`Disconnect`) at once; then removes the name from the participants
        and from the name-to-socket map and broadcasts the list. The socket's own
        binding goes only through that handler, so it stays when the socket had
        already gone. */
    method KickOut(name: string)
      requires Valid()
      modifies this`socketToUsername, this`usernameToSocketId, this`participants, this`connected,
        this`events
      ensures Valid()
      ensures name !in participants && name !in usernameToSocketId
      ensures name !in old(usernameToSocketId) ==>
        && connected == old(connected) && socketToUsername == old(socketToUsername)
        && participants == OrderedSet.Delete(old(participants), name)
        && usernameToSocketId == old(usernameToSocketId) - {name}
        && events == old(events) + [ParticipantsUpdate(participants)]
      ensures name in old(usernameToSocketId) ==>
        var sid := old(usernameToSocketId)[name];
        && connected == old(connected) - {sid}
        && (sid !in old(socketToUsername) ==>
              && socketToUsername == old(socketToUsername)
              && participants == OrderedSet.Delete(old(participants), name)
              && usernameToSocketId == old(usernameToSocketId) - {name}
              && events == old(events) + [KickedOut(sid), ParticipantsUpdate(participants)])
        && (sid in old(socketToUsername) ==>
              var bound := old(socketToUsername)[sid];
              var dropped := OrderedSet.Delete(old(participants), bound);
              && socketToUsername == old(socketToUsername) - {sid}
              && participants == OrderedSet.Delete(dropped, name)
              && usernameToSocketId == old(usernameToSocketId) - {bound} - {name}
              && events == old(events) + [KickedOut(sid), ParticipantsUpdate(dropped),
                                          ParticipantsUpdate(participants)])
    {
      if name in usernameToSocketId {
        var sid := usernameToSocketId[name];
        events := events + [KickedOut(sid)];
        if sid in connected {
          Disconnect(sid);
        } else {
          assert sid !in socketToUsername;
        }
      }
      ghost var beforeDrop := participants;
      DropName(name);
      assert participants == OrderedSet.Delete(beforeDrop, name);
    }

    /** The tail of `kickOut`: removes the name from the participants and from the
        name-to-socket map, whether or not it was there, and broadcasts the list. */
    method DropName(name: string)
      requires Valid()
      modifies this`usernameToSocketId, this`participants, this`events
      ensures Valid()
      ensures participants == OrderedSet.Delete(old(participants), name)
      ensures usernameToSocketId == old(usernameToSocketId) - {name}
      ensures events == old(events) + [ParticipantsUpdate(participants)]
    {
      RemoveNameKeepsConsistent(socketToUsername, usernameToSocketId, participants, name, {});
      assert socketToUsername - {} == socketToUsername;
      participants := OrderedSet.Delete(participants, name);
      usernameToSocketId := usernameToSocketId - {name};
      events := events + [ParticipantsUpdate(participants)];
    }

    /** `disconnect`: the socket is gone; if it has a bound name, removes the name
        from the participants and both maps and broadcasts the list, otherwise
        changes nothing else. (A bound name is never empty, so the truth test of
        server.js on it is a membership test.) */
    method Disconnect(socketId: SocketId)
      requires Valid() && socketId in connected
      modifies this`socketToUsername, this`usernameToSocketId, this`participants, this`connected,
        this`events
      ensures Valid()
      ensures connected == old(connected) - {socketId}
      ensures socketId !in old(socketToUsername) ==>
        && socketToUsername == old(socketToUsername) && usernameToSocketId == old(usernameToSocketId)
        && participants == old(participants) && events == old(events)
      ensures socketId in old(socketToUsername) ==>
        var name := old(socketToUsername)[socketId];
        && participants == OrderedSet.Delete(old(participants), name)
        && usernameToSocketId == old(usernameToSocketId) - {name}
        && socketToUsername == old(socketToUsername) - {socketId}
        && events == old(events) + [ParticipantsUpdate(participants)]
    {
      connected := connected - {socketId};
      if socketId in socketToUsername {
        var name := socketToUsername[socketId];
        RemoveNameKeepsConsistent(socketToUsername, usernameToSocketId, participants, name, {socketId});
        participants := OrderedSet.Delete(participants, name);
        usernameToSocketId := usernameToSocketId - {name};
        socketToUsername := socketToUsername - {socketId};
        events := events + [ParticipantsUpdate(participants)];
      }
    }
  }

  /** The tally of two options with different texts has one entry for each. */
  lemma TwoOptionTally(opts: seq<PollOption>)
    requires |opts| == 2 && opts[0].text != opts[1].text
    requires opts[0].text != PROTO_KEY && opts[1].text != PROTO_KEY
    ensures Tally(opts) == map[opts[0].text := opts[0].votes, opts[1].text := opts[1].votes]
  {
    assert opts[..1][..0] == [];
    assert Tally(opts[..1]) == map[opts[0].text := opts[0].votes];
  }

  /** A server started on an empty data file, on which the teacher has opened the
      poll "Color?" with the options "Red" and "Blue" and a two-second timer. */
  method OpenColorPoll() returns (server: PollServer)
    ensures fresh(server) && server.Valid()
    ensures server.store == [ColorPoll(0, 0, false)]
    ensures "p1" in server.activePolls && server.activePolls["p1"].timerScheduled
    ensures server.events == [PollCreated(ColorPoll(0, 0, false))]
  {
    server := new PollServer([]);
    var red, blue := OptionInput(None, Some("Red"), None), OptionInput(None, Some("Blue"), None);
    server.CreatePoll("p1", "Color?", Some([red, blue]), Num(2), "teacher_1", "t0");
    assert server.store[0].options == [PollOption(1, "Red", None, 0), PollOption(2, "Blue", None, 0)];
    assert server.store[0] == ColorPoll(0, 0, false);
  }

  /** The poll "Color?" as stored, with the given counts for "Red" and "Blue". */
  function ColorPoll(red: nat, blue: nat, closed: bool): Poll {
    Poll("p1", "Color?", [PollOption(1, "Red", None, red), PollOption(2, "Blue", None, blue)],
         2, "teacher_1", "t0", closed)
  }

  /** Two votes for "Red" and one for "Blue" on the open poll give the tally
      { Red: 2, Blue: 1 }. */
  method VoteOnColorPoll(server: PollServer) returns (tally: map<string, nat>)
    requires server.Valid() && server.store == [ColorPoll(0, 0, false)]
    modifies server`store, server`events
    ensures server.Valid() && server.store == [ColorPoll(2, 1, false)]
    ensures tally == map["Red" := 2, "Blue" := 1]
    ensures server.events == old(server.events) + [PollResults(map["Red" := 1, "Blue" := 0]),
      PollResults(map["Red" := 2, "Blue" := 0]), PollResults(tally)]
  {
    var r := server.SubmitAnswer(Some("s1"), Some("Red"), Some("p1"));
    assert FindOption(ColorPoll(0, 0, false).options, "Red") == Some(0);
    assert server.store[0].options == ColorPoll(1, 0, false).options;
    assert server.store == [ColorPoll(1, 0, false)];
    TwoOptionTally(ColorPoll(1, 0, false).options);

    r := server.SubmitAnswer(Some("s2"), Some("Red"), Some("p1"));
    assert FindOption(ColorPoll(1, 0, false).options, "Red") == Some(0);
    assert server.store[0].options == ColorPoll(2, 0, false).options;
    assert server.store == [ColorPoll(2, 0, false)];
    TwoOptionTally(ColorPoll(2, 0, false).options);

    r := server.SubmitAnswer(Some("s3"), Some("Blue"), Some("p1"));
    assert FindOption(ColorPoll(2, 0, false).options, "Blue") == Some(1);
    assert server.store[0].options == ColorPoll(2, 1, false).options;
    assert server.store == [ColorPoll(2, 1, false)];
    TwoOptionTally(ColorPoll(2, 1, false).options);
    tally := r.tally;
  }

  /** After the votes, the timer broadcasts the same tally once more as the final
      result and closes the stored poll; a later vote is ignored, changes nothing and
      broadcasts nothing. `stored` is the data file and `log` everything emitted, at
      the end. */
  method ColorPollScenario() returns (tally: map<string, nat>, late: SubmitOutcome,
                                      stored: seq<Poll>, ghost log: seq<Event>)
    ensures tally == map["Red" := 2, "Blue" := 1]
    ensures late == PollClosed
    ensures stored == [ColorPoll(2, 1, true)]
    ensures log == [PollCreated(ColorPoll(0, 0, false)),
                    PollResults(map["Red" := 1, "Blue" := 0]), PollResults(map["Red" := 2, "Blue" := 0]),
                    PollResults(tally), PollResults(tally)]
  {
    var server := OpenColorPoll();
    tally := VoteOnColorPoll(server);
    assert "p1" in server.activePolls;
    server.CloseOnTimer("p1");
    assert server.store == [ColorPoll(2, 1, true)];
    assert server.events[|server.events| - 1] == PollResults(tally);
    late := server.SubmitAnswer(Some("s4"), Some("Red"), Some("p1"));
    stored := server.store;
    log := server.events;
  }

  /** After a restart the data file may hold a poll that is still open, but nothing
      tracks it, so no timer callback is left to close it, and the poll goes on
      counting votes. */
  method RestartedColorPoll() returns (tracked: bool, outcome: SubmitOutcome, stored: seq<Poll>)
    ensures !tracked
    ensures outcome == Counted(map["Red" := 1, "Blue" := 0])
    ensures stored == [ColorPoll(1, 0, false)]
  {
    var server := new PollServer([ColorPoll(0, 0, false)]);
    tracked := "p1" in server.activePolls;
    outcome := server.SubmitAnswer(Some("s1"), Some("Red"), Some("p1"));
    assert FindOption(ColorPoll(0, 0, false).options, "Red") == Some(0);
    assert server.store[0].options == ColorPoll(1, 0, false).options;
    TwoOptionTally(ColorPoll(1, 0, false).options);
    stored := server.store;
  }
}
