# Realtime trivia room engine — a Dafny model

This project models the authoritative room and game engine of the trivia
game's realtime server. Clients join a room identified by a six-character
code. A player starts the game and picks a genre for each round; clients
send these as the host, but the server accepts them from any connection.
Every player answers a four-option question before a 15-second deadline. A reveal
scores the correct answers with a speed bonus, broadcasts the ranking and
advances the round. After round 10 the game ends.

The model has one module per concern:

- `Optional` is the `Option` datatype, standing for `undefined` and a missing `Map` entry.
- `OrderedMap` is JavaScript's `Map`: a dictionary that remembers insertion order. `set` keeps the position of a present key; `delete` keeps the order of the rest.
- `Types` covers `server/src/types.ts`. Raw payloads are a small JSON datatype. Each zod schema is a validity predicate plus a `safeParse` function, proved sound and complete against that predicate and round-tripped through an encoder. It also holds the `Participant`, `Question`, `RoomStatus`, `Answer` and `RoomState` shapes.
- `RoomCode` covers `server/src/utils/generateCode.ts`. The generating loop is a method. The random draws are a supplied sequence of indices in `[0, 32)`.
- `Scoring` is `calculateScore`, on integers.
- `YouTube` is `extractYouTubeId`, with the regular expression written out as a leftmost-match search.
- `Ranking` is the reveal's ranking: the roster sorted by descending score with a stable sort, as `Array.prototype.sort` is.
- `Engine` is `server/src/index.ts`. `Store` is a class holding the three process-wide maps. Each socket handler is a method. A handler takes the socket id, the raw payload, and whatever the source reads from the clock, `Math.random` or the database. It returns the events it emits, in order: `ToRoom` for `io.to(room).emit`, `ToSender` for `socket.emit`. Each method's postcondition gives the whole new state of the three maps in terms of the old state and room-level functions (`Enter`, `Remove`, `Start`, `OpenQuestion`, `Record`, `Revealed`). `Store.Valid()` holds before and after every handler. The reveal loop is its own method, `ApplyAnswers`, proved against the function `ScoreAnswers`.
- `SessionProperties` proves what those room-level functions promise: one entry per user after join, the exact score a reveal adds, the updates it reports, the ranking, and the round counter over a series of reveals.

Where the design intent and the code differ, the model follows the code:

- A rejoin resets the score to 0.
- `game:start` restarts a game in any status.
- `question:select_genre` checks neither the status nor whether a question is already open.
- Reveal clears neither the question nor the answers. A second reveal therefore scores the same answers again, and `game:end` fires on every reveal from round 10 on.
- `room:leave` keeps the connection bindings.
- `answer:submit` never checks that the socket is bound to the payload's room. The answers map may therefore hold users who have since left, or who never joined that room. Reveal skips every answer whose user is not a participant.
- A disconnect from a stale socket removes the user even if that user has rejoined from another socket.
- A room created on join is stored under a freshly generated code, not the requested one. An existing room under that code is overwritten.

## Model

| member | source | states |
|---|---|---|
| `Engine.Store.constructor` | server/src/index.ts:30-32 | the three maps start empty and the store invariant holds |
| `Engine.NewRoom` | server/src/index.ts:36-47 | a new room is in the lobby at round 0, with no question, no deadline, no participants and no answers |
| `Engine.Store.CreateRoom` | server/src/index.ts:34-50 | the room is stored under the code the draws spell, replacing any room already there; the bindings are unchanged |
| `Engine.Store.Join` | server/src/index.ts:59-95 | a malformed payload changes nothing; an unknown room without `isHost` leaves every map unchanged and errors to the sender only; otherwise both bindings are set, the user is entered with score 0 and this socket, and the roster is broadcast |
| `SessionProperties.JoinKeepsOneEntry` | server/src/index.ts:77-83 | after join the user has exactly one entry, with score 0 and the current socket; other participants are unchanged; the roster grows only for a new user |
| `SessionProperties.RejoinIdempotent` | server/src/index.ts:77-83 | joining twice with the same payload and socket gives the same room as joining once |
| `Engine.Store.Leave` | server/src/index.ts:97-110 | only `participants[userId]` is removed, the bindings stay, and the stored records are broadcast; a malformed payload or unknown room changes nothing |
| `SessionProperties.RemoveOnlyThatUser` | server/src/index.ts:103 | removal deletes that user's entry and no other and changes nothing else in the room |
| `Engine.Store.StartGame` | server/src/index.ts:112-122 | a missing room or a room with no participants changes nothing and emits nothing; otherwise the room is playing at round 1 and `game:start` is emitted once |
| `SessionProperties.StartFromAnyStatus` | server/src/index.ts:118-120 | start sets playing and round 1 whatever the status was, and keeps participants, answers and question |
| `Engine.MakeQuestion` | server/src/index.ts:140-152 | the question has four options in song order, the picked correct index, and the video id extracted from the correct song's url |
| `Engine.Store.SelectGenre` | server/src/index.ts:124-165 | with fewer than four songs the state is unchanged and only the sender gets an error; otherwise the question opens with no answers and deadline `now + 15000`, and is shown to the room without its correct index |
| `SessionProperties.OpenedQuestionShape` | server/src/index.ts:140-155 | an opened question has four options, a correct index in 0..3 and the given id; answers are empty, the deadline is `now + 15000`, and status, round and participants are unchanged |
| `Engine.Store.SubmitAnswer` | server/src/index.ts:167-184 | the answer is recorded and broadcast without correctness exactly when the room exists, the question id matches, the socket is bound, the deadline is set and not passed, and the user has not answered; otherwise nothing changes |
| `SessionProperties.SubmitRecordsOnce` | server/src/index.ts:172-177 | an accepted answer is stored for its user only, and any later submission by that user is refused, so the first answer is never overwritten |
| `SessionProperties.StaleQuestionRefused` | server/src/index.ts:172 | a submission for a question id other than the open one is refused |
| `SessionProperties.LateAnswerRefused` | server/src/index.ts:175 | a submission after the deadline, or with no deadline set, is refused |
| `Engine.ApplyAnswers` | server/src/index.ts:195-203 | the reveal loop computes exactly the participants and updates of the specification `ScoreAnswers` |
| `Engine.ScoreAnswersRaises` | server/src/index.ts:195-203 | over distinct answering users, each participant's score rises by its award once and nothing else about it changes |
| `Engine.ScoreAnswersUpdates` | server/src/index.ts:194-203 | the loop's updates equal the per-answer updates computed from the scores before reveal |
| `SessionProperties.RevealScoresExactly` | server/src/index.ts:195-203 | a participant gains exactly `calculateScore` if its recorded option is correct and nothing otherwise; only scores change; nobody is added or removed |
| `SessionProperties.RevealRaisesOnlyCorrect` | server/src/index.ts:198-200 | no score falls on reveal, and a score rises if and only if the participant answered correctly |
| `SessionProperties.RevealUpdatesExactly` | server/src/index.ts:194-203 | `updates` holds an entry for every participant who answered correctly, with its points and new total, and no other entry |
| `Ranking.SortByScoreCorrect` | server/src/index.ts:205-207 | the sort is descending by score, a permutation of its input, and keeps the input order among equal scores |
| `Ranking.RankingOf` | server/src/index.ts:205-207 | the ranking is the roster sorted descending, a permutation of it, stable for ties |
| `SessionProperties.RevealRanking` | server/src/index.ts:205-207 | the ranking after reveal lists every participant once, sorted descending by score, with equal scores in join order |
| `Ranking.Roster` | server/src/index.ts:87-92 | the `room:update` roster is the public view of every participant, in insertion order |
| `Engine.AdvanceRound` | server/src/index.ts:215-219 | round increases by exactly 1, and the status becomes ended if and only if the round passes the total |
| `Engine.RevealKeepsInv` | server/src/index.ts:186-220 | reveal keeps the room invariant, so a playing room never passes its last round |
| `Engine.RevealRoom` | server/src/index.ts:192-219 | reveal of a room broadcasts the correct index, updates and ranking, adds `game:end` past the last round, and yields `Revealed` |
| `Engine.Store.Reveal` | server/src/index.ts:186-220 | a socket with no bound room, or a room with no open question or no deadline, changes nothing; otherwise the bound room becomes `Revealed` and the reveal events are returned |
| `SessionProperties.RevealKeepsQuestion` | server/src/index.ts:186-220 | reveal leaves the question, deadline and answers in place, so the room can be revealed again |
| `SessionProperties.SecondRevealRescores` | server/src/index.ts:186-220 | a second reveal without a new question adds a correct answer's award again |
| `SessionProperties.RoundsOfReveals` | server/src/index.ts:215-219 | from a playing room, n reveals move the round by n; the room ends exactly when the round passes 10; `game:end` fires once per reveal made from round 10 on |
| `SessionProperties.RoundsOfRevealsEnded` | server/src/index.ts:215-219 | an ended room stays ended, and every further reveal emits `game:end` again |
| `SessionProperties.TenRevealsEndTheGame` | server/src/index.ts:215-219 | a game started at round 1 ends on its tenth reveal, at round 11, with exactly one `game:end`; after nine reveals it is still playing |
| `Engine.Store.Disconnect` | server/src/index.ts:222-236 | when both bindings exist, the bound user is removed from the bound room and both bindings go; when either is missing nothing happens |
| `Scoring.RemainingMs` | server/src/index.ts:53 | the time left is `deadline - (now - timeMs)` clamped below at 0 |
| `Scoring.CalculateScore` | server/src/index.ts:52-56 | the score is never below `basePoints`, is exactly `basePoints` when no time remains, and the bonus never exceeds remaining × multiplier / 100 |
| `Scoring.ScoreMonotone` | server/src/index.ts:52-56 | the score does not decrease in `timeMs` or the deadline and does not increase in `now` |
| `Scoring.BonusMonotone` | server/src/index.ts:54 | the bonus `(remaining * mult) div 100` does not decrease as the time remaining grows |
| `Scoring.DefaultScoringExample` | server/src/index.ts:52-56 | with base 100 and multiplier 2, 15000 ms remaining earns 400 points |
| `YouTube.MatchAt` | server/src/index.ts:250 | a match at a position is a marker followed by 11 id characters |
| `YouTube.Search` | server/src/index.ts:251 | the search finds the leftmost match position, or reports that none exists |
| `YouTube.ExtractYouTubeId` | server/src/index.ts:249-253 | without a match the url is returned unchanged; otherwise the result is the 11 id characters of the leftmost match |
| `YouTube.ExtractExamples` | server/src/index.ts:249-253 | a `youtu.be/` link yields its id; a url with no full id is returned unchanged |
| `Types.ParseJoinRoom` | server/src/types.ts:3-9 | a join payload is accepted only with a 6-character room code, non-empty user id and name, a url-valid avatar if present, and an optional boolean `isHost`; everything valid is accepted |
| `Types.JoinRoomRoundTrip` | server/src/types.ts:3-9 | an encoded join record parses back to itself exactly when it is valid |
| `Types.ParseLeaveRoom` | server/src/types.ts:11-14 | a leave payload needs a 6-character room code and a non-empty user id |
| `Types.LeaveRoomRoundTrip` | server/src/types.ts:11-14 | an encoded leave record parses back to itself exactly when it is valid |
| `Types.ParseSelectGenre` | server/src/types.ts:16-19 | a select-genre payload needs a 6-character room code and a non-empty genre id |
| `Types.SelectGenreRoundTrip` | server/src/types.ts:16-19 | an encoded select-genre record parses back to itself exactly when it is valid |
| `Types.ParseStartGame` | server/src/types.ts:21-23 | a start payload needs a 6-character room code |
| `Types.StartGameRoundTrip` | server/src/types.ts:21-23 | an encoded start record parses back to itself exactly when it is valid |
| `Types.ParseAnswerSubmit` | server/src/types.ts:25-30 | an answer payload needs a 6-character room code, a non-empty question id, an integer option index in 0..3 and an integer time of at least 0 |
| `Types.AnswerSubmitRoundTrip` | server/src/types.ts:25-30 | an encoded answer record parses back to itself exactly when it is valid |
| `Types.AnswerSubmitRejectsFractions` | server/src/types.ts:28-29 | a fractional option index or time is always refused |
| `RoomCode.GenerateRoomCode` | server/src/utils/generateCode.ts:3-9 | the loop builds a code of exactly the requested length whose i-th character is the alphabet symbol of the i-th draw |
| `RoomCode.CodeForShape` | server/src/utils/generateCode.ts:3-9 | a code has the requested length, length 0 gives the empty string, and every character is in the alphabet |
| `RoomCode.AlphabetFacts` | server/src/utils/generateCode.ts:1 | the alphabet has 32 distinct characters and contains none of `0`, `1`, `I` and `O` |
| `RoomCode.DefaultCodeIsRoomCode` | server/src/utils/generateCode.ts:3 | every code of the default length 6 passes the 6-character room code check |

## Left out

- Express, http, CORS, the `/health` route and socket.io transport (server/src/index.ts:18-26, 239-247) are not modelled. `socket.join` and `socket.leave` are not modelled either. Broadcasts are returned event values tagged with their audience.
- The Prisma song query in `question:select_genre` is the `songs` parameter. Its `take: 4` becomes the precondition `|songs| <= 4`. `server/src/admin.ts` is not part of this model.
- `Math.random()` is supplied as parameters: the draws of the room code and the correct index. `Date.now()` is the parameter `now`. `select_genre` reads the clock twice, at lines 144 and 154; the model uses one reading for the deadline. The question id is an opaque string supplied by the caller.
- zod's `.url()` check on `avatarUrl` is library URL parsing. It is the predicate parameter `isUrl`.
- JSON numbers are exact reals. JavaScript's IEEE doubles, `NaN` and infinities are not modelled. zod rejects the latter two anyway.
- Scoring.CalculateScore: computes `(remaining * multiplier) div 100` on integers. This equals the source's `Math.floor((remaining / 100) * multiplier)` for the configured multiplier 2. For other multipliers, floating-point rounding of the product may differ.
- Scoring.CalculateScore: uses exact unbounded integers where the source uses IEEE doubles. The two agree while `remaining * multiplier` stays below 2^53. The schema bounds `timeMs` only from below, so a client can push `remaining` past that point. Beyond it the source's doubles round and the model does not.
- The round counter is also an unbounded integer. Reveals can repeat without limit, so it is not kept below 2^53 either.
- Engine.Award: scores every correct answer of one reveal against the single clock reading `now`. The source's `calculateScore` reads `Date.now()` once per correct answer (server/src/index.ts:53, 199), so within one reveal a later answer in map order can be scored against a later clock.
- Types.IsRoomCode: counts string length in Unicode scalar values, and so do the other length checks of the schemas. zod counts UTF-16 code units. A code containing characters outside the Basic Multilingual Plane is therefore judged differently: for example, three emoji are length 6 to zod and length 3 here.
- Rooms are values in the store's map, not shared objects. No handler keeps a reference to a room across events, so this captures the source's in-place updates.
- Each handler runs atomically. The interleaving that the `await` in `question:select_genre` would allow, where another event runs while the query is in flight, is not modelled.
- Rooms are never removed, so a bound socket's room always exists. The "room is gone" early returns of reveal and disconnect are modelled but cannot be reached.
- The React/Next user interface, the mock client game hook, client-side authentication and the client-only type declarations are not part of this model.
