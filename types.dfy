/**
 * The inbound payload schemas and the state shapes of the realtime server
 * (server/src/types.ts). Each zod schema is two things here: a validity
 * predicate on the typed payload record, and a `safeParse` function from a raw
 * payload to that record, proved sound (what it accepts is valid and is what
 * the raw payload says) and complete (every valid record the raw payload
 * spells out is accepted).
 */
module Types {
  import opened Optional
  import opened OrderedMap

  /** A raw payload as a socket event delivers it (decoded JSON). */
  datatype Json =
    | JNull
    | JBool(b: bool)
    | JNumber(x: real)
    | JString(s: string)
    | JArray(items: seq<Json>)
    | JObject(fields: map<string, Json>)

  /** Every room code field is checked with `z.string().length(6)`. */
  const ROOM_CODE_LENGTH: nat := 6

  // ---------------------------------------------------------------------
  // Field readers with zod's semantics for `z.object({...})`: the payload
  // must be an object; unknown keys are ignored.

  /** A required field of the given JSON kind: None when missing or of another kind. */
  function StringField(raw: Json, key: string): Option<string> {
    if raw.JObject? && key in raw.fields && raw.fields[key].JString? then Some(raw.fields[key].s) else None
  }

  function NumberField(raw: Json, key: string): Option<real> {
    if raw.JObject? && key in raw.fields && raw.fields[key].JNumber? then Some(raw.fields[key].x) else None
  }

  /**
   * An `.optional()` field: Some(None) when the key is absent, Some(Some(v))
   * when it holds a value of the right kind, None (rejected) otherwise.
   */
  function OptionalStringField(raw: Json, key: string): Option<Option<string>> {
    if !raw.JObject? then None
    else if key !in raw.fields then Some(None)
    else if raw.fields[key].JString? then Some(Some(raw.fields[key].s))
    else None
  }

  function OptionalBoolField(raw: Json, key: string): Option<Option<bool>> {
    if !raw.JObject? then None
    else if key !in raw.fields then Some(None)
    else if raw.fields[key].JBool? then Some(Some(raw.fields[key].b))
    else None
  }

  /** `z.number().int()`: a number with no fractional part. */
  predicate IsInteger(x: real) {
    x.Floor as real == x
  }

  /** `z.string().length(6)` on a room code. */
  predicate IsRoomCode(s: string) {
    |s| == ROOM_CODE_LENGTH
  }

  /** `z.string().min(1)` */
  predicate NonEmpty(s: string) {
    |s| >= 1
  }

  // ---------------------------------------------------------------------
  // room:join

  datatype JoinRoomPayload = JoinRoomPayload(
    roomCode: string, userId: string, name: string,
    avatarUrl: Option<string>, isHost: Option<bool>)

  /**
   * JoinRoomSchema. `isUrl` stands for zod's `.url()` check, which is library
   * URL parsing and is not modelled.
   */
  predicate JoinRoomSchema(p: JoinRoomPayload, isUrl: string -> bool) {
    && IsRoomCode(p.roomCode)
    && NonEmpty(p.userId)
    && NonEmpty(p.name)
    && (p.avatarUrl.Some? ==> isUrl(p.avatarUrl.value))
  }

  /** The raw payload spells out exactly the record `p` in the schema's keys. */
  predicate JoinRoomAgrees(raw: Json, p: JoinRoomPayload) {
    && StringField(raw, "roomCode") == Some(p.roomCode)
    && StringField(raw, "userId") == Some(p.userId)
    && StringField(raw, "name") == Some(p.name)
    && OptionalStringField(raw, "avatarUrl") == Some(p.avatarUrl)
    && OptionalBoolField(raw, "isHost") == Some(p.isHost)
  }

  /** JoinRoomSchema.safeParse */
  function ParseJoinRoom(raw: Json, isUrl: string -> bool): (r: Option<JoinRoomPayload>)
    ensures r.Some? ==> JoinRoomSchema(r.value, isUrl) && JoinRoomAgrees(raw, r.value)
    ensures forall p :: JoinRoomAgrees(raw, p) && JoinRoomSchema(p, isUrl) ==> r == Some(p)
  {
    match (StringField(raw, "roomCode"), StringField(raw, "userId"), StringField(raw, "name"),
           OptionalStringField(raw, "avatarUrl"), OptionalBoolField(raw, "isHost"))
    case (Some(code), Some(user), Some(name), Some(avatar), Some(host)) =>
      var p := JoinRoomPayload(code, user, name, avatar, host);
      if JoinRoomSchema(p, isUrl) then Some(p) else None
    case _ => None
  }

  function EncodeJoinRoom(p: JoinRoomPayload): Json {
    JObject(map["roomCode" := JString(p.roomCode), "userId" := JString(p.userId), "name" := JString(p.name)]
      + (if p.avatarUrl.Some? then map["avatarUrl" := JString(p.avatarUrl.value)] else map[])
      + (if p.isHost.Some? then map["isHost" := JBool(p.isHost.value)] else map[]))
  }

  /** A join payload sent as JSON is accepted exactly when it is valid, and unchanged. */
  lemma JoinRoomRoundTrip(p: JoinRoomPayload, isUrl: string -> bool)
    ensures ParseJoinRoom(EncodeJoinRoom(p), isUrl) == if JoinRoomSchema(p, isUrl) then Some(p) else None
  {
    assert JoinRoomAgrees(EncodeJoinRoom(p), p);
  }

  // ---------------------------------------------------------------------
  // room:leave

  datatype LeaveRoomPayload = LeaveRoomPayload(roomCode: string, userId: string)

  predicate LeaveRoomSchema(p: LeaveRoomPayload) {
    IsRoomCode(p.roomCode) && NonEmpty(p.userId)
  }

  predicate LeaveRoomAgrees(raw: Json, p: LeaveRoomPayload) {
    StringField(raw, "roomCode") == Some(p.roomCode) && StringField(raw, "userId") == Some(p.userId)
  }

  /** LeaveRoomSchema.safeParse */
  function ParseLeaveRoom(raw: Json): (r: Option<LeaveRoomPayload>)
    ensures r.Some? ==> LeaveRoomSchema(r.value) && LeaveRoomAgrees(raw, r.value)
    ensures forall p :: LeaveRoomAgrees(raw, p) && LeaveRoomSchema(p) ==> r == Some(p)
  {
    match (StringField(raw, "roomCode"), StringField(raw, "userId"))
    case (Some(code), Some(user)) =>
      var p := LeaveRoomPayload(code, user);
      if LeaveRoomSchema(p) then Some(p) else None
    case _ => None
  }

  function EncodeLeaveRoom(p: LeaveRoomPayload): Json {
    JObject(map["roomCode" := JString(p.roomCode), "userId" := JString(p.userId)])
  }

  lemma LeaveRoomRoundTrip(p: LeaveRoomPayload)
    ensures ParseLeaveRoom(EncodeLeaveRoom(p)) == if LeaveRoomSchema(p) then Some(p) else None
  {
    assert LeaveRoomAgrees(EncodeLeaveRoom(p), p);
  }

  // ---------------------------------------------------------------------
  // question:select_genre

  datatype SelectGenrePayload = SelectGenrePayload(roomCode: string, genreId: string)

  predicate SelectGenreSchema(p: SelectGenrePayload) {
    IsRoomCode(p.roomCode) && NonEmpty(p.genreId)
  }

  predicate SelectGenreAgrees(raw: Json, p: SelectGenrePayload) {
    StringField(raw, "roomCode") == Some(p.roomCode) && StringField(raw, "genreId") == Some(p.genreId)
  }

  /** SelectGenreSchema.safeParse */
  function ParseSelectGenre(raw: Json): (r: Option<SelectGenrePayload>)
    ensures r.Some? ==> SelectGenreSchema(r.value) && SelectGenreAgrees(raw, r.value)
    ensures forall p :: SelectGenreAgrees(raw, p) && SelectGenreSchema(p) ==> r == Some(p)
  {
    match (StringField(raw, "roomCode"), StringField(raw, "genreId"))
    case (Some(code), Some(genre)) =>
      var p := SelectGenrePayload(code, genre);
      if SelectGenreSchema(p) then Some(p) else None
    case _ => None
  }

  function EncodeSelectGenre(p: SelectGenrePayload): Json {
    JObject(map["roomCode" := JString(p.roomCode), "genreId" := JString(p.genreId)])
  }

  lemma SelectGenreRoundTrip(p: SelectGenrePayload)
    ensures ParseSelectGenre(EncodeSelectGenre(p)) == if SelectGenreSchema(p) then Some(p) else None
  {
    assert SelectGenreAgrees(EncodeSelectGenre(p), p);
  }

  // ---------------------------------------------------------------------
  // game:start

  datatype StartGamePayload = StartGamePayload(roomCode: string)

  predicate StartGameSchema(p: StartGamePayload) {
    IsRoomCode(p.roomCode)
  }

  predicate StartGameAgrees(raw: Json, p: StartGamePayload) {
    StringField(raw, "roomCode") == Some(p.roomCode)
  }

  /** StartGameSchema.safeParse */
  function ParseStartGame(raw: Json): (r: Option<StartGamePayload>)
    ensures r.Some? ==> StartGameSchema(r.value) && StartGameAgrees(raw, r.value)
    ensures forall p :: StartGameAgrees(raw, p) && StartGameSchema(p) ==> r == Some(p)
  {
    match StringField(raw, "roomCode")
    case Some(code) => if IsRoomCode(code) then Some(StartGamePayload(code)) else None
    case None => None
  }

  function EncodeStartGame(p: StartGamePayload): Json {
    JObject(map["roomCode" := JString(p.roomCode)])
  }

  lemma StartGameRoundTrip(p: StartGamePayload)
    ensures ParseStartGame(EncodeStartGame(p)) == if StartGameSchema(p) then Some(p) else None
  {
    assert StartGameAgrees(EncodeStartGame(p), p);
  }

  // ---------------------------------------------------------------------
  // answer:submit

  datatype AnswerSubmitPayload = AnswerSubmitPayload(
    roomCode: string, questionId: string, optionIndex: int, timeMs: int)

  /** The integer checks of `z.number().int()` are made when parsing into `int` fields. */
  predicate AnswerSubmitSchema(p: AnswerSubmitPayload) {
    && IsRoomCode(p.roomCode)
    && NonEmpty(p.questionId)
    && 0 <= p.optionIndex <= 3
    && p.timeMs >= 0
  }

  predicate AnswerSubmitAgrees(raw: Json, p: AnswerSubmitPayload) {
    && StringField(raw, "roomCode") == Some(p.roomCode)
    && StringField(raw, "questionId") == Some(p.questionId)
    && NumberField(raw, "optionIndex") == Some(p.optionIndex as real)
    && NumberField(raw, "timeMs") == Some(p.timeMs as real)
  }

  /** AnswerSubmitSchema.safeParse */
  function ParseAnswerSubmit(raw: Json): (r: Option<AnswerSubmitPayload>)
    ensures r.Some? ==> AnswerSubmitSchema(r.value) && AnswerSubmitAgrees(raw, r.value)
    ensures forall p :: AnswerSubmitAgrees(raw, p) && AnswerSubmitSchema(p) ==> r == Some(p)
  {
    match (StringField(raw, "roomCode"), StringField(raw, "questionId"),
           NumberField(raw, "optionIndex"), NumberField(raw, "timeMs"))
    case (Some(code), Some(question), Some(option), Some(time)) =>
      if IsInteger(option) && IsInteger(time) then
        var p := AnswerSubmitPayload(code, question, option.Floor, time.Floor);
        if AnswerSubmitSchema(p) then Some(p) else None
      else None
    case _ => None
  }

  function EncodeAnswerSubmit(p: AnswerSubmitPayload): Json {
    JObject(map["roomCode" := JString(p.roomCode), "questionId" := JString(p.questionId),
                "optionIndex" := JNumber(p.optionIndex as real), "timeMs" := JNumber(p.timeMs as real)])
  }

  lemma AnswerSubmitRoundTrip(p: AnswerSubmitPayload)
    ensures ParseAnswerSubmit(EncodeAnswerSubmit(p)) == if AnswerSubmitSchema(p) then Some(p) else None
  {
    assert AnswerSubmitAgrees(EncodeAnswerSubmit(p), p);
  }

  /** A fractional option index or time is refused, whatever else the payload holds. */
  lemma AnswerSubmitRejectsFractions(raw: Json)
    requires NumberField(raw, "optionIndex").Some? && NumberField(raw, "timeMs").Some?
    requires !IsInteger(NumberField(raw, "optionIndex").value) || !IsInteger(NumberField(raw, "timeMs").value)
    ensures ParseAnswerSubmit(raw) == None
  {
  }

  // ---------------------------------------------------------------------
  // State shapes

  datatype Participant = Participant(
    socketId: string, userId: string, name: string, avatarUrl: Option<string>, score: int)

  datatype Question = Question(
    id: string, youtubeId: string, options: seq<string>, correctIndex: int, genreId: string)

  /** `options: string[]; // length 4` and `correctIndex: number; // 0..3` */
  predicate QuestionShape(q: Question) {
    |q.options| == 4 && 0 <= q.correctIndex < 4
  }

  datatype RoomStatus = Lobby | Playing | Ended

  /** One entry of `answers`, keyed by user id. */
  datatype Answer = Answer(optionIndex: int, timeMs: int)

  /** `speedBonusMultiplier` is points per 100 ms remaining before the deadline. */
  datatype RoomState = RoomState(
    code: string,
    hostUserId: string,
    hostSocketId: string,
    participants: OMap<string, Participant>,
    status: RoomStatus,
    round: int,
    currentQuestion: Option<Question>,
    questionDeadlineTs: Option<int>,
    answers: OMap<string, Answer>,
    basePoints: int,
    speedBonusMultiplier: int,
    totalRounds: int)

  /**
   * The shape a room keeps: both maps are well formed, `participants` is keyed
   * by each participant's own user id, every stored answer passed
   * AnswerSubmitSchema, and an open question has four options and a correct
   * index among them.
   */
  ghost predicate RoomShape(st: RoomState) {
    && st.participants.Valid()
    && st.answers.Valid()
    && (forall u :: u in st.participants.vals ==> st.participants.vals[u].userId == u)
    && (forall u :: u in st.answers.vals ==>
          0 <= st.answers.vals[u].optionIndex <= 3 && st.answers.vals[u].timeMs >= 0)
    && (st.currentQuestion.Some? ==> QuestionShape(st.currentQuestion.value))
  }
}
