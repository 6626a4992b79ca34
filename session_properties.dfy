/**
 * What the room session engine's handlers promise, stated over the room-level
 * functions the `Store` methods are proved against (server/src/index.ts).
 * Each lemma relates a handler's effect on one room to an independent
 * description of it: one entry per user after join, the exact score a reveal
 * adds, the updates it reports, the round counter over a series of reveals.
 */
module SessionProperties {
  import opened Optional
  import opened OrderedMap
  import opened Types
  import opened Scoring
  import opened Ranking
  import opened Engine

  // -----------------------------------------------------------------------
  // room:join

  /**
   * Joining leaves exactly one entry for the user, however often it joins:
   * the entry carries this socket, the payload's profile and score 0 (a
   * rejoin resets the score), every other participant is untouched, and the
   * roster grows only for a user not yet present.
   */
  lemma JoinKeepsOneEntry(st: RoomState, socketId: string, p: JoinRoomPayload)
    requires RoomInv(st)
    ensures var next := Enter(st, Entry(socketId, p));
      && RoomInv(next)
      && Count(next.participants.keys, p.userId) == 1
      && next.participants.Get(p.userId) == Some(Participant(socketId, p.userId, p.name, p.avatarUrl, 0))
      && (forall u :: u != p.userId ==> next.participants.Get(u) == st.participants.Get(u))
      && next.participants.Size() == (if st.participants.Has(p.userId) then st.participants.Size() else st.participants.Size() + 1)
  {
    SetKeepsOneEntry(st.participants, p.userId, Entry(socketId, p));
  }

  /** Joining twice in a row with the same payload and socket leaves the room as one join does. */
  lemma RejoinIdempotent(st: RoomState, socketId: string, p: JoinRoomPayload)
    requires RoomInv(st)
    ensures Enter(Enter(st, Entry(socketId, p)), Entry(socketId, p)) == Enter(st, Entry(socketId, p))
  {
    SetIdempotent(st.participants, p.userId, Entry(socketId, p));
  }

  // -----------------------------------------------------------------------
  // room:leave and disconnect

  /** Removing a user takes out its entry and no other; nothing but the roster changes. */
  lemma RemoveOnlyThatUser(st: RoomState, u: string)
    requires RoomInv(st)
    ensures var next := Remove(st, u);
      && RoomInv(next)
      && !next.participants.Has(u)
      && (forall x :: x != u ==> next.participants.Get(x) == st.participants.Get(x))
      && next.participants.Size() == (if st.participants.Has(u) then st.participants.Size() - 1 else st.participants.Size())
      && next == st.(participants := next.participants)
  {
    DeleteRemovesOnlyKey(st.participants, u);
  }

  // -----------------------------------------------------------------------
  // question:select_genre

  /**
   * A successful select_genre opens a well-formed question: four options,
   * one per song in the order the query returned them, the random pick as
   * the correct index, no answers, and a deadline 15 s from now. Status,
   * round and participants are left as they were.
   */
  lemma OpenedQuestionShape(st: RoomState, questionId: string, songs: seq<Song>, pick: int, genreId: string, now: int)
    requires RoomInv(st) && |songs| == 4 && 0 <= pick < 4
    ensures var next := OpenQuestion(st, MakeQuestion(questionId, songs, pick, genreId), now + ANSWER_WINDOW_MS);
      && RoomInv(next)
      && next.currentQuestion.Some?
      && |next.currentQuestion.value.options| == 4
      && (forall i :: 0 <= i < 4 ==> next.currentQuestion.value.options[i] == OptionLabel(songs[i]))
      && next.currentQuestion.value.correctIndex == pick
      && next.currentQuestion.value.id == questionId
      && next.answers.Size() == 0
      && next.questionDeadlineTs == Some(now + 15000)
      && next.participants == st.participants && next.status == st.status && next.round == st.round
  {
    OpenQuestionKeepsInv(st, MakeQuestion(questionId, songs, pick, genreId), now + ANSWER_WINDOW_MS);
  }

  // -----------------------------------------------------------------------
  // answer:submit

  /**
   * An accepted answer is recorded for its user and no other entry changes;
   * once recorded, any later submission by that user for any question id at
   * any time is refused, so the first answer is never overwritten.
   */
  lemma SubmitRecordsOnce(st: RoomState, questionId: string, u: string, now: int, a: Answer, questionId': string, now': int)
    requires RoomInv(st) && AcceptsAnswer(st, questionId, u, now) && 0 <= a.optionIndex <= 3 && a.timeMs >= 0
    ensures var next := Record(st, u, a);
      && RoomInv(next)
      && next.answers.Get(u) == Some(a)
      && next.answers.Size() == st.answers.Size() + 1
      && (forall x :: x != u ==> next.answers.Get(x) == st.answers.Get(x))
      && !AcceptsAnswer(next, questionId', u, now')
  {
    RecordKeepsInv(st, u, a);
    SetKeepsOneEntry(st.answers, u, a);
  }

  /** A submission whose question id is not the open question's is refused. */
  lemma StaleQuestionRefused(st: RoomState, questionId: string, u: string, now: int)
    requires st.currentQuestion.Some? && st.currentQuestion.value.id != questionId
    ensures !AcceptsAnswer(st, questionId, u, now)
  {
  }

  /** A submission after the deadline, or with no deadline armed, is refused. */
  lemma LateAnswerRefused(st: RoomState, questionId: string, u: string, now: int)
    requires !DeadlineArmed(st.questionDeadlineTs) || now > st.questionDeadlineTs.value
    ensures !AcceptsAnswer(st, questionId, u, now)
  {
  }

  // -----------------------------------------------------------------------
  // answer:reveal: scores

  /**
   * Reveal adds to each participant exactly what its answer earns: the
   * speed-bonus score of `calculateScore` when its recorded option is the
   * correct one, nothing otherwise. Answers of users who are no longer
   * participants are skipped, no participant is added or removed, and only
   * scores change.
   */
  lemma {:induction false} RevealScoresExactly(st: RoomState, now: int)
    requires RoomInv(st) && Revealable(st)
    ensures var ps := Revealed(st, now).participants;
      && ps.keys == st.participants.keys
      && ps.vals.Keys == st.participants.vals.Keys
      && forall u :: u in st.participants.vals ==>
           ps.vals[u] == st.participants.vals[u].(score := ps.vals[u].score)
           && ps.vals[u].score == st.participants.vals[u].score +
                (if AnsweredCorrectly(st, u)
                 then CalculateScore(st.basePoints, st.speedBonusMultiplier, st.answers.vals[u].timeMs,
                                     st.questionDeadlineTs.value, now)
                 else 0)
  {
    ScoreAnswersRaises(st, now, st.answers.keys);
    forall u | u in st.participants.vals
      ensures u in st.answers.keys <==> u in st.answers.vals
    {
    }
  }

  /**
   * Scores never fall on reveal, and a participant's score rises exactly when
   * it recorded the correct option (the default base of 100 points makes
   * every correct answer worth something).
   */
  lemma RevealRaisesOnlyCorrect(st: RoomState, now: int, u: string)
    requires RoomInv(st) && Revealable(st) && u in st.participants.vals
    ensures Revealed(st, now).participants.vals[u].score >= st.participants.vals[u].score
    ensures Revealed(st, now).participants.vals[u].score > st.participants.vals[u].score <==> AnsweredCorrectly(st, u)
  {
    RevealScoresExactly(st, now);
  }

  /** The updates a reveal reports, described one answer at a time. */
  lemma {:induction false} UpdatesForContents(st: RoomState, now: int, ks: seq<string>)
    requires Revealable(st)
    ensures forall up :: up in UpdatesFor(st, now, ks) ==>
      && up.userId in ks
      && up.userId in st.participants.vals
      && AnsweredCorrectly(st, up.userId)
      && up.delta == Award(st, now, up.userId)
      && up.total == st.participants.vals[up.userId].score + up.delta
    ensures forall u :: u in ks && u in st.participants.vals && AnsweredCorrectly(st, u) ==>
      ScoreUpdate(u, Award(st, now, u), st.participants.vals[u].score + Award(st, now, u)) in UpdatesFor(st, now, ks)
  {
    if ks != [] {
      var init, last := ks[..|ks| - 1], ks[|ks| - 1];
      UpdatesForContents(st, now, init);
      assert ks == init + [last];
      forall u | u in ks ensures u in init || u == last { }
    }
  }

  /**
   * answer:reveal's `updates`: exactly one entry per participant whose
   * recorded option is correct, carrying the points earned and the new total;
   * no entry for a wrong answer or for a user who has left.
   */
  lemma RevealUpdatesExactly(st: RoomState, now: int)
    requires Revealable(st)
    ensures forall up :: up in Updates(st, now) ==>
      && up.userId in st.participants.vals
      && AnsweredCorrectly(st, up.userId)
      && up.delta == Award(st, now, up.userId)
      && up.total == st.participants.vals[up.userId].score + up.delta
    ensures forall u :: u in st.participants.vals && AnsweredCorrectly(st, u) ==>
      ScoreUpdate(u, Award(st, now, u), st.participants.vals[u].score + Award(st, now, u)) in Updates(st, now)
  {
    ScoreAnswersUpdates(st, now, st.answers.keys);
    UpdatesForContents(st, now, st.answers.keys);
  }

  /**
   * The reveal's ranking: every participant once, descending by score, and
   * participants with equal scores in the order they joined.
   */
  lemma RevealRanking(st: RoomState, now: int)
    requires Revealable(st)
    ensures var ranking := RankingOf(Scored(st, now));
      && SortedDesc(ranking)
      && multiset(ranking) == multiset(Roster(Scored(st, now)))
      && |ranking| == st.participants.Size()
      && forall k :: WithScore(ranking, k) == WithScore(Roster(Scored(st, now)), k)
  {
    var ranking := RankingOf(Scored(st, now));
    assert |ranking| == |multiset(ranking)| == |multiset(Roster(Scored(st, now)))|;
  }

  // -----------------------------------------------------------------------
  // answer:reveal: the question stays open

  /** Reveal clears neither the question nor the answers, so the room is still revealable. */
  lemma RevealKeepsQuestion(st: RoomState, now: int)
    requires RoomInv(st) && Revealable(st)
    ensures var next := Revealed(st, now);
      && RoomInv(next) && Revealable(next)
      && next.currentQuestion == st.currentQuestion
      && next.questionDeadlineTs == st.questionDeadlineTs
      && next.answers == st.answers
  {
    RevealKeepsInv(st, now);
  }

  /**
   * Revealing twice without selecting a new question scores the same
   * answers twice: a participant with the correct answer gains its award
   * on both reveals.
   */
  lemma SecondRevealRescores(st: RoomState, now1: int, now2: int, u: string)
    requires RoomInv(st) && Revealable(st) && u in st.participants.vals && AnsweredCorrectly(st, u)
    ensures var once := Revealed(st, now1);
      Revealed(once, now2).participants.vals[u].score
        == st.participants.vals[u].score + Award(st, now1, u) + Award(st, now2, u)
  {
    RevealKeepsQuestion(st, now1);
    RevealScoresExactly(st, now1);
    var once := Revealed(st, now1);
    RevealScoresExactly(once, now2);
    assert AnsweredCorrectly(once, u);
  }

  // -----------------------------------------------------------------------
  // answer:reveal: rounds

  /** The room after one reveal per clock reading in `nows`, in order. */
  function RevealSeries(st: RoomState, nows: seq<int>): (r: RoomState)
    requires RoomInv(st) && Revealable(st)
    ensures RoomInv(r) && Revealable(r)
    ensures r.round == st.round + |nows|
    ensures r.totalRounds == st.totalRounds
    decreases |nows|
  {
    if nows == [] then st
    else
      RevealKeepsQuestion(st, nows[0]);
      RevealSeries(Revealed(st, nows[0]), nows[1..])
  }

  /** How many of those reveals broadcast `game:end`. */
  function GameEndCount(st: RoomState, nows: seq<int>): nat
    requires RoomInv(st) && Revealable(st)
    decreases |nows|
  {
    if nows == [] then 0
    else
      RevealKeepsQuestion(st, nows[0]);
      (if EndsGame(st) then 1 else 0) + GameEndCount(Revealed(st, nows[0]), nows[1..])
  }

  /**
   * Starting from round `r` of a playing game (round <= 10), the reveals keep
   * the game playing until the round passes 10; the status is `ended` exactly
   * when it does, and `game:end` fires once per reveal made from round 10 or
   * later.
   */
  lemma {:induction false} RoundsOfReveals(st: RoomState, nows: seq<int>)
    requires RoomInv(st) && Revealable(st) && st.status == Playing
    ensures RevealSeries(st, nows).round == st.round + |nows|
    ensures RevealSeries(st, nows).status == (if st.round + |nows| > 10 then Ended else Playing)
    ensures GameEndCount(st, nows) == if st.round + |nows| > 10 then st.round + |nows| - 10 else 0
    decreases |nows|
  {
    if nows != [] {
      RevealKeepsQuestion(st, nows[0]);
      var next := Revealed(st, nows[0]);
      if st.round + 1 > 10 {
        RoundsOfRevealsEnded(next, nows[1..]);
      } else {
        RoundsOfReveals(next, nows[1..]);
      }
    }
  }

  /** Once ended, a room stays ended, and every further reveal broadcasts `game:end` again. */
  lemma {:induction false} RoundsOfRevealsEnded(st: RoomState, nows: seq<int>)
    requires RoomInv(st) && Revealable(st) && st.status == Ended && st.round > 10
    ensures RevealSeries(st, nows).status == Ended
    ensures GameEndCount(st, nows) == |nows|
    decreases |nows|
  {
    if nows != [] {
      RevealKeepsQuestion(st, nows[0]);
      RoundsOfRevealsEnded(Revealed(st, nows[0]), nows[1..]);
    }
  }

  /**
   * A game started at round 1 ends on its tenth reveal: after ten reveals the
   * room is `ended` at round 11 and `game:end` has fired exactly once; after
   * nine it is still playing and has not fired.
   */
  lemma TenRevealsEndTheGame(st: RoomState, nows: seq<int>)
    requires RoomInv(st) && Revealable(st) && st.status == Playing && st.round == 1
    ensures |nows| == 10 ==>
      RevealSeries(st, nows).status == Ended && RevealSeries(st, nows).round == 11 && GameEndCount(st, nows) == 1
    ensures |nows| == 9 ==>
      RevealSeries(st, nows).status == Playing && GameEndCount(st, nows) == 0
  {
    RoundsOfReveals(st, nows);
  }

  // -----------------------------------------------------------------------
  // game:start

  /** Starting puts the room in play at round 1 and changes nothing else, whatever its status was. */
  lemma StartFromAnyStatus(st: RoomState)
    requires RoomInv(st)
    ensures var next := Start(st);
      && RoomInv(next) && next.status == Playing && next.round == 1
      && next.participants == st.participants && next.answers == st.answers
      && next.currentQuestion == st.currentQuestion
  {
    StartKeepsInv(st);
  }
}
