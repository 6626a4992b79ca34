/**
 * The room session engine of the realtime server (server/src/index.ts).
 *
 * `Store` holds the three process-wide maps: rooms by code, and for every
 * connected socket the room code and the user id it was bound to on join.
 * Each socket event handler is a method that runs to completion, takes what
 * the source reads from the clock, the random number generator and the
 * database as parameters, and returns the events it emits, in order.
 */
module Engine {
  import opened Optional
  import opened OrderedMap
  import opened Types
  import opened Scoring
  import opened Ranking
  import YouTube
  import RoomCode

  /** The answer window opened by `question:select_genre`. */
  const ANSWER_WINDOW_MS: int := 15000

  /** A song row as the content query returns it. */
  datatype Song = Song(title: string, artist: string, youtubeUrl: string)

  /** One entry of the reveal's `updates`. */
  datatype ScoreUpdate = ScoreUpdate(userId: string, delta: int, total: int)

  datatype Event =
    | RoomUpdate(code: string, roster: seq<Standing>, status: RoomStatus)
      // after leave and disconnect the roster is sent as the stored records, socket ids included
    | RoomUpdateRecords(code: string, participants: seq<Participant>, status: RoomStatus)
    | GameStart(round: int)
    | QuestionShow(id: string, youtubeId: string, options: seq<string>, deadlineTs: int, round: int, totalRounds: int)
    | AnswerUpdate(userId: string, optionIndex: int)
    | AnswerReveal(correctIndex: int, updates: seq<ScoreUpdate>, ranking: seq<Standing>)
    | GameEnd(ranking: seq<Standing>)
    | Error(message: string)

  /** `io.to(room).emit(...)` or `socket.emit(...)` back to the acting connection. */
  datatype Outbound = ToRoom(room: string, event: Event) | ToSender(event: Event)

  /** The record `getOrCreateRoom` stores: default scoring, lobby, round 0. */
  function NewRoom(code: string, hostUserId: string, hostSocketId: string): (st: RoomState)
    ensures RoomShape(st) && st.participants.Size() == 0 && st.answers.Size() == 0
    ensures st.status == Lobby && st.round == 0 && st.currentQuestion == None && st.questionDeadlineTs == None
  {
    RoomState(code, hostUserId, hostSocketId, Empty(), Lobby, 0, None, None, Empty(), 100, 2, 10)
  }

  /** JavaScript truthiness of `state.questionDeadlineTs`: missing and 0 are both false. */
  predicate DeadlineArmed(d: Option<int>) {
    d.Some? && d.value != 0
  }

  /** `${s.title} — ${s.artist}` */
  function OptionLabel(s: Song): string {
    s.title + " — " + s.artist
  }

  /** The question built from the four songs of the query, the correct one picked at random. */
  function MakeQuestion(id: string, songs: seq<Song>, correctIndex: int, genreId: string): (q: Question)
    requires |songs| == 4 && 0 <= correctIndex < 4
    ensures QuestionShape(q)
    ensures q.id == id && q.correctIndex == correctIndex && q.genreId == genreId
    ensures forall i :: 0 <= i < 4 ==> q.options[i] == OptionLabel(songs[i])
    ensures q.youtubeId == YouTube.ExtractYouTubeId(songs[correctIndex].youtubeUrl)
  {
    Question(id, YouTube.ExtractYouTubeId(songs[correctIndex].youtubeUrl),
             seq(|songs|, i requires 0 <= i < |songs| => OptionLabel(songs[i])), correctIndex, genreId)
  }

  // -----------------------------------------------------------------------
  // Reveal: what scoring the recorded answers does to the participants

  /** The room has an open question and a deadline, as reveal scores against them. */
  ghost predicate Revealable(st: RoomState) {
    st.participants.Valid() && st.answers.Valid() && st.currentQuestion.Some? && st.questionDeadlineTs.Some?
  }

  /** Whether `u` has recorded the correct option. */
  predicate AnsweredCorrectly(st: RoomState, u: string)
    requires st.currentQuestion.Some?
  {
    u in st.answers.vals && st.answers.vals[u].optionIndex == st.currentQuestion.value.correctIndex
  }

  /** What user `u` earns: the speed-bonus score for a correct recorded answer, else nothing. */
  function Award(st: RoomState, now: int, u: string): int
    requires Revealable(st)
  {
    if AnsweredCorrectly(st, u)
    then CalculateScore(st.basePoints, st.speedBonusMultiplier, st.answers.vals[u].timeMs,
                        st.questionDeadlineTs.value, now)
    else 0
  }

  /** The participants and the reported updates while the reveal loop runs. */
  datatype Tally = Tally(participants: OMap<string, Participant>, updates: seq<ScoreUpdate>)

  /** One iteration of the reveal loop, for the answer of user `u`. */
  function ScoreOne(st: RoomState, now: int, t: Tally, u: string): (r: Tally)
    requires Revealable(st) && t.participants.Valid()
    ensures r.participants.Valid() && r.participants.keys == t.participants.keys
  {
    if u in t.participants.vals && AnsweredCorrectly(st, u) then
      var delta := Award(st, now, u);
      var p := t.participants.vals[u].(score := t.participants.vals[u].score + delta);
      Tally(t.participants.Set(u, p), t.updates + [ScoreUpdate(u, delta, p.score)])
    else t
  }

  /** The reveal loop run over the answers of the user ids `ks`, in that order. */
  function ScoreAnswers(st: RoomState, now: int, ks: seq<string>): (t: Tally)
    requires Revealable(st)
    ensures t.participants.Valid() && t.participants.keys == st.participants.keys
  {
    if ks == [] then Tally(st.participants, [])
    else ScoreOne(st, now, ScoreAnswers(st, now, ks[..|ks| - 1]), ks[|ks| - 1])
  }

  /** The participants after reveal. */
  function Scored(st: RoomState, now: int): (ps: OMap<string, Participant>)
    requires Revealable(st)
    ensures ps.Valid() && ps.keys == st.participants.keys
  {
    ScoreAnswers(st, now, st.answers.keys).participants
  }

  /** The updates reveal reports. */
  function Updates(st: RoomState, now: int): seq<ScoreUpdate>
    requires Revealable(st)
  {
    ScoreAnswers(st, now, st.answers.keys).updates
  }

  /**
   * The scoring loop of the reveal handler: for each recorded answer in
   * insertion order, skip a user who is no longer a participant, and add the
   * speed-bonus score to a participant whose option is the correct one.
   */
  method ApplyAnswers(st: RoomState, now: int) returns (ps: OMap<string, Participant>, updates: seq<ScoreUpdate>)
    requires Revealable(st)
    ensures ps == Scored(st, now)
    ensures updates == Updates(st, now)
  {
    var correct := st.currentQuestion.value.correctIndex;
    var deadline := st.questionDeadlineTs.value;
    var keys := st.answers.keys;
    ps := st.participants;
    updates := [];
    for i := 0 to |keys|
      invariant ps == ScoreAnswers(st, now, keys[..i]).participants
      invariant updates == ScoreAnswers(st, now, keys[..i]).updates
    {
      var userId := keys[i];
      assert keys[..i + 1][..i] == keys[..i];
      ghost var t := ScoreAnswers(st, now, keys[..i]);
      assert ScoreAnswers(st, now, keys[..i + 1]) == ScoreOne(st, now, t, userId);
      var ans := st.answers.vals[userId];
      var participant := ps.Get(userId);
      if participant.None? {
        continue;
      }
      if ans.optionIndex == correct {
        var delta := CalculateScore(st.basePoints, st.speedBonusMultiplier, ans.timeMs, deadline, now);
        assert delta == Award(st, now, userId);
        var p := participant.value.(score := participant.value.score + delta);
        ps := ps.Set(userId, p);
        updates := updates + [ScoreUpdate(userId, delta, p.score)];
      }
    }
    assert keys[..|keys|] == keys;
  }

  // The reveal loop in closed form: over distinct user ids, each participant
  // gains its award exactly once, and the updates go to the correct answers.

  /** The update reported for the answer of user `u`, from the scores before reveal. */
  function UpdateOf(st: RoomState, now: int, u: string): seq<ScoreUpdate>
    requires Revealable(st)
  {
    if u in st.participants.vals && AnsweredCorrectly(st, u)
    then [ScoreUpdate(u, Award(st, now, u), st.participants.vals[u].score + Award(st, now, u))]
    else []
  }

  /** The concatenated updates of the user ids `ks`, in that order. */
  function UpdatesFor(st: RoomState, now: int, ks: seq<string>): seq<ScoreUpdate>
    requires Revealable(st)
  {
    if ks == [] then [] else UpdatesFor(st, now, ks[..|ks| - 1]) + UpdateOf(st, now, ks[|ks| - 1])
  }

  /** Participant `u` with the award of its answer added when `u` is among `ks`. */
  function Raised(st: RoomState, now: int, ks: seq<string>, u: string): Participant
    requires Revealable(st) && u in st.participants.vals
  {
    var p := st.participants.vals[u];
    p.(score := p.score + if u in ks then Award(st, now, u) else 0)
  }

  /** Dropping the last element of distinct user ids leaves distinct ids without it. */
  lemma DistinctInit(ks: seq<string>)
    requires Distinct(ks) && ks != []
    ensures Distinct(ks[..|ks| - 1]) && ks[|ks| - 1] !in ks[..|ks| - 1]
  {
    var init := ks[..|ks| - 1];
    forall i, j | 0 <= i < j < |init| ensures init[i] != init[j] {
      assert init[i] == ks[i] && init[j] == ks[j];
    }
    forall i | 0 <= i < |init| ensures init[i] != ks[|ks| - 1] {
      assert init[i] == ks[i];
    }
  }

  /** Over distinct user ids, each participant gains the award of its answer once. */
  lemma {:induction false} ScoreAnswersRaises(st: RoomState, now: int, ks: seq<string>)
    requires Revealable(st) && Distinct(ks)
    ensures ScoreAnswers(st, now, ks).participants.vals.Keys == st.participants.vals.Keys
    ensures forall u :: u in st.participants.vals ==>
      ScoreAnswers(st, now, ks).participants.vals[u] == Raised(st, now, ks, u)
  {
    if ks != [] {
      var init, u := ks[..|ks| - 1], ks[|ks| - 1];
      DistinctInit(ks);
      ScoreAnswersRaises(st, now, init);
      var prev, t := ScoreAnswers(st, now, init), ScoreAnswers(st, now, ks);
      assert t == ScoreOne(st, now, prev, u);
      forall x | x in st.participants.vals
        ensures t.participants.vals[x] == Raised(st, now, ks, x)
      {
        assert x in ks <==> x in init || x == u;
      }
    }
  }

  /** The loop leaves the entry of a user whose answer it has not reached as it was. */
  lemma {:induction false} ScoreAnswersUntouched(st: RoomState, now: int, ks: seq<string>, u: string)
    requires Revealable(st) && u !in ks
    ensures u in ScoreAnswers(st, now, ks).participants.vals <==> u in st.participants.vals
    ensures u in st.participants.vals ==> ScoreAnswers(st, now, ks).participants.vals[u] == st.participants.vals[u]
  {
    if ks != [] {
      var init := ks[..|ks| - 1];
      assert u !in init by {
        forall i | 0 <= i < |init| ensures init[i] != u {
          assert init[i] == ks[i];
        }
      }
      ScoreAnswersUntouched(st, now, init, u);
    }
  }

  /** Over distinct user ids, the loop reports the updates computed from the scores before reveal. */
  lemma {:induction false} ScoreAnswersUpdates(st: RoomState, now: int, ks: seq<string>)
    requires Revealable(st) && Distinct(ks)
    ensures ScoreAnswers(st, now, ks).updates == UpdatesFor(st, now, ks)
  {
    if ks != [] {
      var init, u := ks[..|ks| - 1], ks[|ks| - 1];
      DistinctInit(ks);
      ScoreAnswersUpdates(st, now, init);
      ScoreAnswersUntouched(st, now, init, u);
      var prev := ScoreAnswers(st, now, init);
      assert ScoreAnswers(st, now, ks) == ScoreOne(st, now, prev, u);
    }
  }

  /** `state.round += 1`, and the game ends once the round passes the total. */
  function AdvanceRound(st: RoomState): (next: RoomState)
    ensures next.round == st.round + 1
    ensures next.status == (if st.round + 1 > st.totalRounds then Ended else st.status)
    ensures next == st.(round := next.round, status := next.status)
  {
    var st' := st.(round := st.round + 1);
    if st'.round > st'.totalRounds then st'.(status := Ended) else st'
  }

  /** Whether a reveal at this state also broadcasts `game:end`. */
  predicate EndsGame(st: RoomState) {
    st.round + 1 > st.totalRounds
  }

  // -----------------------------------------------------------------------
  // Store invariants

  /**
   * What every stored room keeps: its shape, the default scoring constants,
   * and a round counter that is never negative and lies within 1..totalRounds
   * while the game is playing.
   */
  ghost predicate RoomInv(st: RoomState) {
    && RoomShape(st)
    && IsRoomCode(st.code)
    && st.basePoints == 100 && st.speedBonusMultiplier == 2 && st.totalRounds == 10
    && st.round >= 0
    && (st.status == Playing ==> 1 <= st.round <= st.totalRounds)
  }

  /**
   * Every room is stored under its own code and keeps RoomInv. The second
   * conjunct is instantiated only where RoomInv of a stored room is asked
   * for, which keeps the handlers' proofs small.
   */
  ghost predicate RoomsValid(rooms: map<string, RoomState>) {
    && (forall c :: c in rooms ==>
          rooms[c].code == c && rooms[c].participants.Valid() && rooms[c].answers.Valid())
    && (forall c {:trigger RoomInv(rooms[c])} :: c in rooms ==> RoomInv(rooms[c]))
  }

  /**
   * A socket is bound to a room and a user together, the room exists (rooms
   * are never removed) and the user id is not empty.
   */
  ghost predicate BindingsValid(rooms: map<string, RoomState>, socketRoom: map<string, string>, socketUser: map<string, string>) {
    && socketRoom.Keys == socketUser.Keys
    && (forall s :: s in socketRoom ==> socketRoom[s] in rooms)
    && (forall s :: s in socketUser ==> NonEmpty(socketUser[s]))
  }

  lemma PutRoom(rooms: map<string, RoomState>, socketRoom: map<string, string>, socketUser: map<string, string>,
                c: string, st: RoomState)
    requires RoomsValid(rooms) && BindingsValid(rooms, socketRoom, socketUser)
    requires st.code == c && RoomInv(st)
    ensures RoomsValid(rooms[c := st]) && BindingsValid(rooms[c := st], socketRoom, socketUser)
  {
    var updated := rooms[c := st];
    forall x | x in updated ensures RoomInv(updated[x]) {
      if x != c {
        assert RoomInv(rooms[x]);
      }
    }
  }

  lemma BindSocket(rooms: map<string, RoomState>, socketRoom: map<string, string>, socketUser: map<string, string>,
                   s: string, c: string, u: string)
    requires BindingsValid(rooms, socketRoom, socketUser)
    requires c in rooms && NonEmpty(u)
    ensures BindingsValid(rooms, socketRoom[s := c], socketUser[s := u])
  {
  }

  lemma UnbindSocket(rooms: map<string, RoomState>, socketRoom: map<string, string>, socketUser: map<string, string>, s: string)
    requires BindingsValid(rooms, socketRoom, socketUser)
    ensures BindingsValid(rooms, socketRoom - {s}, socketUser - {s})
  {
  }

  // -----------------------------------------------------------------------
  // What each handler does to the one room it acts on

  /** The record join stores: this socket, the payload's profile, score 0. */
  function Entry(socketId: string, p: JoinRoomPayload): Participant {
    Participant(socketId, p.userId, p.name, p.avatarUrl, 0)
  }

  /** `state.participants.set(e.userId, e)` */
  function Enter(st: RoomState, e: Participant): RoomState
    requires st.participants.Valid()
  {
    st.(participants := st.participants.Set(e.userId, e))
  }

  /** `state.participants.delete(u)` */
  function Remove(st: RoomState, u: string): RoomState
    requires st.participants.Valid()
  {
    st.(participants := st.participants.Delete(u))
  }

  /** game:start: playing from round 1, whatever the status was. */
  function Start(st: RoomState): RoomState {
    st.(status := Playing, round := 1)
  }

  /** select_genre: the new question, no answers, the deadline. */
  function OpenQuestion(st: RoomState, q: Question, deadline: int): RoomState {
    st.(currentQuestion := Some(q), answers := Empty(), questionDeadlineTs := Some(deadline))
  }

  /**
   * The room-side guards of answer:submit for user `u`: the open question has
   * this id, the deadline is set and not passed, and `u` has not answered yet.
   */
  predicate AcceptsAnswer(st: RoomState, questionId: string, u: string, now: int) {
    && st.currentQuestion.Some?
    && st.currentQuestion.value.id == questionId
    && DeadlineArmed(st.questionDeadlineTs)
    && now <= st.questionDeadlineTs.value
    && !st.answers.Has(u)
  }

  /** `state.answers.set(u, a)` */
  function Record(st: RoomState, u: string, a: Answer): RoomState
    requires st.answers.Valid()
  {
    st.(answers := st.answers.Set(u, a))
  }

  /** The `room:update` sent after join: the public view of every participant. */
  function RosterUpdate(st: RoomState): Event
    requires st.participants.Valid()
  {
    RoomUpdate(st.code, Roster(st.participants), st.status)
  }

  /** The `room:update` sent after leave and disconnect: the stored records. */
  function RecordsUpdate(st: RoomState): Event
    requires st.participants.Valid()
  {
    RoomUpdateRecords(st.code, st.participants.Values(), st.status)
  }

  /** Entering a participant under its own user id keeps the room invariant. */
  lemma EnterKeepsInv(st: RoomState, e: Participant)
    requires RoomInv(st)
    ensures RoomInv(Enter(st, e))
  {
  }

  lemma RemoveKeepsInv(st: RoomState, u: string)
    requires RoomInv(st)
    ensures RoomInv(Remove(st, u))
  {
  }

  lemma StartKeepsInv(st: RoomState)
    requires RoomInv(st)
    ensures RoomInv(Start(st))
  {
  }

  lemma OpenQuestionKeepsInv(st: RoomState, q: Question, deadline: int)
    requires RoomInv(st) && QuestionShape(q)
    ensures RoomInv(OpenQuestion(st, q, deadline))
  {
  }

  lemma RecordKeepsInv(st: RoomState, u: string, a: Answer)
    requires RoomInv(st) && 0 <= a.optionIndex <= 3 && a.timeMs >= 0
    ensures RoomInv(Record(st, u, a))
  {
  }

  /** Reveal keeps the invariant; in particular a playing room never passes the last round. */
  lemma RevealKeepsInv(st: RoomState, now: int)
    requires RoomInv(st) && Revealable(st)
    ensures RoomInv(AdvanceRound(st.(participants := Scored(st, now))))
  {
    ScoreAnswersRaises(st, now, st.answers.keys);
  }

  /** The room after reveal: scored participants, next round, ended past the last one. */
  function Revealed(st: RoomState, now: int): RoomState
    requires Revealable(st)
  {
    AdvanceRound(st.(participants := Scored(st, now)))
  }

  /** What reveal broadcasts: the correct option, the updates and the ranking, then `game:end` past the last round. */
  function RevealEvents(st: RoomState, now: int): seq<Outbound>
    requires Revealable(st)
  {
    var ranking := RankingOf(Scored(st, now));
    [ToRoom(st.code, AnswerReveal(st.currentQuestion.value.correctIndex, Updates(st, now), ranking))]
    + (if EndsGame(st) then [ToRoom(st.code, GameEnd(ranking))] else [])
  }

  /**
   * The part of answer:reveal that acts on the room: score the recorded
   * answers, broadcast the updates and the ranking, advance the round and,
   * past the last one, end the game.
   */
  method RevealRoom(st: RoomState, now: int) returns (next: RoomState, out: seq<Outbound>)
    requires RoomInv(st) && Revealable(st)
    ensures RoomInv(next) && next.code == st.code
    ensures next == Revealed(st, now)
    ensures out == RevealEvents(st, now)
  {
    RevealKeepsInv(st, now);
    var correct := st.currentQuestion.value.correctIndex;
    var participants, updates := ApplyAnswers(st, now);
    var ranking := RankingOf(participants);
    out := [ToRoom(st.code, AnswerReveal(correct, updates, ranking))];
    next := st.(participants := participants);
    next := next.(round := next.round + 1);
    if next.round > next.totalRounds {
      next := next.(status := Ended);
      out := out + [ToRoom(st.code, GameEnd(ranking))];
    }
  }

  // -----------------------------------------------------------------------
  // The store and the handlers

  class Store {
    /** roomCodeToState */
    var rooms: map<string, RoomState>
    /** socketIdToRoomCode */
    var socketRoom: map<string, string>
    /** socketIdToUserId */
    var socketUser: map<string, string>

    /**
     * Every room is stored under its own code and keeps RoomInv; a socket is
     * bound to a room and a user together, the room exists (rooms are never
     * removed), and the user id is not empty.
     */
    ghost predicate Valid()
      reads this
    {
      RoomsValid(rooms) && BindingsValid(rooms, socketRoom, socketUser)
    }

    constructor ()
      ensures Valid()
      ensures rooms == map[] && socketRoom == map[] && socketUser == map[]
    {
      rooms, socketRoom, socketUser := map[], map[], map[];
    }

    /**
     * getOrCreateRoom: a fresh lobby under a generated code. The code is not
     * checked for uniqueness: a room already stored under it is replaced.
     */
    method CreateRoom(hostUserId: string, hostSocketId: string, codeDraws: seq<RoomCode.Draw>) returns (code: string)
      requires Valid()
      requires |codeDraws| >= RoomCode.DEFAULT_LENGTH
      modifies this
      ensures Valid()
      ensures code == RoomCode.CodeFor(RoomCode.DEFAULT_LENGTH, codeDraws)
      ensures rooms == old(rooms)[code := NewRoom(code, hostUserId, hostSocketId)]
      ensures socketRoom == old(socketRoom) && socketUser == old(socketUser)
    {
      code := RoomCode.GenerateRoomCode(RoomCode.DEFAULT_LENGTH, codeDraws);
      RoomCode.GeneratedIsCodeFor(RoomCode.DEFAULT_LENGTH, codeDraws, code);
      PutRoom(rooms, socketRoom, socketUser, code, NewRoom(code, hostUserId, hostSocketId));
      rooms := rooms[code := NewRoom(code, hostUserId, hostSocketId)];
    }

    /**
     * room:join. An unknown room code is an error to the sender unless the
     * sender is the host, who gets a new room under a generated code. The
     * socket is bound to the room and the user, and the user is (re)entered
     * with score 0 and this socket.
     */
    method Join(socketId: string, raw: Json, isUrl: string -> bool, codeDraws: seq<RoomCode.Draw>)
      returns (out: seq<Outbound>)
      requires Valid()
      requires |codeDraws| >= RoomCode.DEFAULT_LENGTH
      modifies this
      ensures Valid()
      ensures ParseJoinRoom(raw, isUrl).None? ==> unchanged(this) && out == []
      ensures ParseJoinRoom(raw, isUrl).Some? && ParseJoinRoom(raw, isUrl).value.roomCode in old(rooms) ==>
        var p := ParseJoinRoom(raw, isUrl).value;
        var st := Enter(old(rooms)[p.roomCode], Entry(socketId, p));
        && rooms == old(rooms)[p.roomCode := st]
        && socketRoom == old(socketRoom)[socketId := p.roomCode]
        && socketUser == old(socketUser)[socketId := p.userId]
        && out == [ToRoom(p.roomCode, RosterUpdate(st))]
      ensures ParseJoinRoom(raw, isUrl).Some? && ParseJoinRoom(raw, isUrl).value.roomCode !in old(rooms)
              && ParseJoinRoom(raw, isUrl).value.isHost == Some(true) ==>
        var p := ParseJoinRoom(raw, isUrl).value;
        var code := RoomCode.CodeFor(RoomCode.DEFAULT_LENGTH, codeDraws);
        var st := Enter(NewRoom(code, p.userId, socketId), Entry(socketId, p));
        && rooms == old(rooms)[code := st]
        && socketRoom == old(socketRoom)[socketId := code]
        && socketUser == old(socketUser)[socketId := p.userId]
        && out == [ToRoom(code, RosterUpdate(st))]
      ensures ParseJoinRoom(raw, isUrl).Some? && ParseJoinRoom(raw, isUrl).value.roomCode !in old(rooms)
              && ParseJoinRoom(raw, isUrl).value.isHost != Some(true) ==>
        unchanged(this) && out == [ToSender(Error("Room not found"))]
    {
      var parsed := ParseJoinRoom(raw, isUrl);
      if parsed.None? {
        return [];
      }
      var p := parsed.value;
      var code := p.roomCode;
      if code !in rooms {
        if p.isHost == Some(true) {
          code := CreateRoom(p.userId, socketId, codeDraws);
        } else {
          return [ToSender(Error("Room not found"))];
        }
      }
      var st := rooms[code];
      assert RoomInv(st);
      BindSocket(rooms, socketRoom, socketUser, socketId, st.code, p.userId);
      socketRoom := socketRoom[socketId := st.code];
      socketUser := socketUser[socketId := p.userId];
      EnterKeepsInv(st, Entry(socketId, p));
      st := Enter(st, Entry(socketId, p));
      PutRoom(rooms, socketRoom, socketUser, code, st);
      rooms := rooms[code := st];
      out := [ToRoom(st.code, RosterUpdate(st))];
    }

    /** room:leave. Removes the named user; the connection bindings stay. */
    method Leave(raw: Json) returns (out: seq<Outbound>)
      requires Valid()
      modifies this
      ensures Valid()
      ensures ParseLeaveRoom(raw).None? || ParseLeaveRoom(raw).value.roomCode !in old(rooms) ==>
        unchanged(this) && out == []
      ensures ParseLeaveRoom(raw).Some? && ParseLeaveRoom(raw).value.roomCode in old(rooms) ==>
        var p := ParseLeaveRoom(raw).value;
        var st := Remove(old(rooms)[p.roomCode], p.userId);
        && rooms == old(rooms)[p.roomCode := st]
        && socketRoom == old(socketRoom) && socketUser == old(socketUser)
        && out == [ToRoom(p.roomCode, RecordsUpdate(st))]
    {
      var parsed := ParseLeaveRoom(raw);
      if parsed.None? {
        return [];
      }
      var p := parsed.value;
      if p.roomCode !in rooms {
        return [];
      }
      var st := rooms[p.roomCode];
      RemoveKeepsInv(st, p.userId);
      st := Remove(st, p.userId);
      PutRoom(rooms, socketRoom, socketUser, p.roomCode, st);
      rooms := rooms[p.roomCode := st];
      out := [ToRoom(p.roomCode, RecordsUpdate(st))];
    }

    /** game:start. Needs an existing room with a participant; any status is restarted at round 1. */
    method StartGame(raw: Json) returns (out: seq<Outbound>)
      requires Valid()
      modifies this
      ensures Valid()
      ensures ParseStartGame(raw).None?
              || ParseStartGame(raw).value.roomCode !in old(rooms)
              || old(rooms)[ParseStartGame(raw).value.roomCode].participants.Size() < 1 ==>
        unchanged(this) && out == []
      ensures ParseStartGame(raw).Some?
              && ParseStartGame(raw).value.roomCode in old(rooms)
              && old(rooms)[ParseStartGame(raw).value.roomCode].participants.Size() >= 1 ==>
        var code := ParseStartGame(raw).value.roomCode;
        && rooms == old(rooms)[code := Start(old(rooms)[code])]
        && socketRoom == old(socketRoom) && socketUser == old(socketUser)
        && out == [ToRoom(code, GameStart(1))]
    {
      var parsed := ParseStartGame(raw);
      if parsed.None? {
        return [];
      }
      var code := parsed.value.roomCode;
      if code !in rooms {
        return [];
      }
      var st := rooms[code];
      if st.participants.Size() < 1 {
        return [];
      }
      StartKeepsInv(st);
      st := Start(st);
      PutRoom(rooms, socketRoom, socketUser, code, st);
      rooms := rooms[code := st];
      out := [ToRoom(code, GameStart(st.round))];
    }

    /**
     * question:select_genre. `songs` is what the content query returned (it
     * asks for at most four), `pick` the random correct index, `questionId`
     * the fresh question token and `now` the clock. With fewer than four songs
     * only the sender hears of it; otherwise the question opens for 15 s with
     * no answers recorded. Neither the status nor an already open question is
     * checked.
     */
    method SelectGenre(raw: Json, songs: seq<Song>, pick: int, questionId: string, now: int)
      returns (out: seq<Outbound>)
      requires Valid()
      requires |songs| <= 4
      requires 0 <= pick < 4
      modifies this
      ensures Valid()
      ensures ParseSelectGenre(raw).None? || ParseSelectGenre(raw).value.roomCode !in old(rooms) ==>
        unchanged(this) && out == []
      ensures ParseSelectGenre(raw).Some? && ParseSelectGenre(raw).value.roomCode in old(rooms) && |songs| < 4 ==>
        unchanged(this) && out == [ToSender(Error("Not enough songs for this genre"))]
      ensures ParseSelectGenre(raw).Some? && ParseSelectGenre(raw).value.roomCode in old(rooms) && |songs| == 4 ==>
        var p := ParseSelectGenre(raw).value;
        var before := old(rooms)[p.roomCode];
        var q := MakeQuestion(questionId, songs, pick, p.genreId);
        && rooms == old(rooms)[p.roomCode := OpenQuestion(before, q, now + ANSWER_WINDOW_MS)]
        && socketRoom == old(socketRoom) && socketUser == old(socketUser)
        && out == [ToRoom(p.roomCode, QuestionShow(questionId, q.youtubeId, q.options, now + ANSWER_WINDOW_MS,
                                                   before.round, before.totalRounds))]
    {
      var parsed := ParseSelectGenre(raw);
      if parsed.None? {
        return [];
      }
      var p := parsed.value;
      if p.roomCode !in rooms {
        return [];
      }
      var st := rooms[p.roomCode];
      if |songs| < 4 {
        return [ToSender(Error("Not enough songs for this genre"))];
      }
      var q := MakeQuestion(questionId, songs, pick, p.genreId);
      var deadline := now + ANSWER_WINDOW_MS;
      OpenQuestionKeepsInv(st, q, deadline);
      st := OpenQuestion(st, q, deadline);
      PutRoom(rooms, socketRoom, socketUser, p.roomCode, st);
      rooms := rooms[p.roomCode := st];
      out := [ToRoom(p.roomCode, QuestionShow(q.id, q.youtubeId, q.options, deadline, st.round, st.totalRounds))];
    }

    /**
     * When answer:submit records an answer: the room exists, its open
     * question has this id, the socket is bound to a user, the deadline is
     * set and not passed, and that user has not answered yet.
     */
    ghost predicate SubmitAccepted(socketId: string, p: AnswerSubmitPayload, now: int)
      reads this
    {
      && p.roomCode in rooms
      && socketId in socketUser
      && AcceptsAnswer(rooms[p.roomCode], p.questionId, socketUser[socketId], now)
    }

    /** answer:submit. Records the answer of the socket's user, or silently drops it. */
    method SubmitAnswer(socketId: string, raw: Json, now: int) returns (out: seq<Outbound>)
      requires Valid()
      modifies this
      ensures Valid()
      ensures ParseAnswerSubmit(raw).None? ==> unchanged(this) && out == []
      ensures ParseAnswerSubmit(raw).Some? && !old(SubmitAccepted(socketId, ParseAnswerSubmit(raw).value, now)) ==>
        unchanged(this) && out == []
      ensures ParseAnswerSubmit(raw).Some? && old(SubmitAccepted(socketId, ParseAnswerSubmit(raw).value, now)) ==>
        var p := ParseAnswerSubmit(raw).value;
        var u := old(socketUser)[socketId];
        && rooms == old(rooms)[p.roomCode := Record(old(rooms)[p.roomCode], u, Answer(p.optionIndex, p.timeMs))]
        && socketRoom == old(socketRoom) && socketUser == old(socketUser)
        && out == [ToRoom(p.roomCode, AnswerUpdate(u, p.optionIndex))]
    {
      var parsed := ParseAnswerSubmit(raw);
      if parsed.None? {
        return [];
      }
      var p := parsed.value;
      if p.roomCode !in rooms {
        return [];
      }
      var st := rooms[p.roomCode];
      if st.currentQuestion.None? || st.currentQuestion.value.id != p.questionId {
        return [];
      }
      if socketId !in socketUser {
        return [];
      }
      var userId := socketUser[socketId];
      if !DeadlineArmed(st.questionDeadlineTs) || now > st.questionDeadlineTs.value {
        return [];  // timeout
      }
      if st.answers.Has(userId) {
        return [];  // already answered
      }
      RecordKeepsInv(st, userId, Answer(p.optionIndex, p.timeMs));
      st := Record(st, userId, Answer(p.optionIndex, p.timeMs));
      PutRoom(rooms, socketRoom, socketUser, p.roomCode, st);
      rooms := rooms[p.roomCode := st];
      out := [ToRoom(p.roomCode, AnswerUpdate(userId, p.optionIndex))];
    }

    /** When answer:reveal acts: the socket's room has an open question and a set deadline. */
    ghost predicate RevealReady(socketId: string)
      reads this
    {
      && socketId in socketRoom
      && socketRoom[socketId] in rooms
      && rooms[socketRoom[socketId]].currentQuestion.Some?
      && DeadlineArmed(rooms[socketRoom[socketId]].questionDeadlineTs)
    }

    /**
     * answer:reveal, for the room the socket is bound to: scores the recorded
     * answers, broadcasts the updates and the ranking, and advances the round,
     * ending the game past the last one. The question and the answers stay in
     * place, so revealing again scores the same answers again.
     */
    method Reveal(socketId: string, now: int) returns (out: seq<Outbound>)
      requires Valid()
      modifies this
      ensures Valid()
      ensures !old(RevealReady(socketId)) ==> unchanged(this) && out == []
      ensures old(RevealReady(socketId)) ==>
        var code := old(socketRoom)[socketId];
        && rooms == old(rooms)[code := Revealed(old(rooms)[code], now)]
        && socketRoom == old(socketRoom) && socketUser == old(socketUser)
        && out == RevealEvents(old(rooms)[code], now)
    {
      if socketId !in socketRoom {
        return [];
      }
      var roomCode := socketRoom[socketId];
      if roomCode !in rooms {
        return [];
      }
      var st := rooms[roomCode];
      if st.currentQuestion.None? || !DeadlineArmed(st.questionDeadlineTs) {
        return [];
      }
      var next, events := RevealRoom(st, now);
      PutRoom(rooms, socketRoom, socketUser, roomCode, next);
      rooms := rooms[roomCode := next];
      out := events;
    }

    /**
     * disconnect. A socket bound to a room and a user removes that user from
     * the room and loses both bindings; otherwise nothing happens. The user is
     * removed even when it has since joined again from another socket.
     */
    method Disconnect(socketId: string) returns (out: seq<Outbound>)
      requires Valid()
      modifies this
      ensures Valid()
      ensures socketId !in old(socketRoom) || socketId !in old(socketUser) ==> unchanged(this) && out == []
      ensures socketId in old(socketRoom) && socketId in old(socketUser) ==>
        var code := old(socketRoom)[socketId];
        var st := Remove(old(rooms)[code], old(socketUser)[socketId]);
        && rooms == old(rooms)[code := st]
        && socketRoom == old(socketRoom) - {socketId}
        && socketUser == old(socketUser) - {socketId}
        && out == [ToRoom(code, RecordsUpdate(st))]
    {
      if socketId !in socketRoom || socketId !in socketUser {
        return [];
      }
      var roomCode := socketRoom[socketId];
      var userId := socketUser[socketId];
      if roomCode !in rooms {
        return [];
      }
      var st := rooms[roomCode];
      RemoveKeepsInv(st, userId);
      st := Remove(st, userId);
      PutRoom(rooms, socketRoom, socketUser, roomCode, st);
      rooms := rooms[roomCode := st];
      out := [ToRoom(roomCode, RecordsUpdate(st))];
      UnbindSocket(rooms, socketRoom, socketUser, socketId);
      socketRoom := socketRoom - {socketId};
      socketUser := socketUser - {socketId};
    }
  }
}
