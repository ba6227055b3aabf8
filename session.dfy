/**
 * Game progression: joining, resuming and answering, over the store.
 *
 * A player moves from stage 1 through `MaxStage`; a correct answer moves
 * them up by exactly one stage, and a stage above `MaxStage` is victory.
 */
module Session {
  import opened Wrappers
  import opened Strings
  import opened Db
  import opened AnswerChecker

  const MaxStage: int := 3

  const CorrectStat: string := "correct_submissions"
  const WrongStat: string := "wrong_submissions"

  const AlreadyCompletedMessage: string := "You have already completed all challenges!"
  const VictoryMessage: string := "Congratulations! You've solved all puzzles!"
  const NextChallengeMessage: string := "Correct! Moving to the next challenge."
  const NextQuestionMissingMessage: string := "Correct! However, an error occurred fetching the next question."
  const WrongAnswerMessage: string := "That's not quite it. Try a different approach!"

  function NoQuestionMessage(stage: int): string {
    "Error: No question available for stage " + IntToDecimal(stage) + ". Please contact support."
  }

  datatype JoinResponse = JoinResponse(user: User, question: Option<Question>)

  datatype AttemptResponse = AttemptResponse(correct: bool, victory: bool, question: Option<Question>, message: string)

  /** The exceptions `submit_answer` can raise: `ValueError` for an unknown
      id, `TypeError` for a call of the rule with the wrong number of
      arguments, and `AttributeError` from `text.lower()` when the rule is
      handed something other than a str. */
  datatype SessionError = UnknownUser(id: UserId) | RuleTypeError(expected: nat, given: nat) | RuleAttributeError

  // ------------------------------------------------------------------
  // _find_user_id_by_name
  // ------------------------------------------------------------------

  /** `id` is a user of that name who joined no later than any other. */
  ghost predicate IsOldest(users: map<UserId, UserRow>, name: string, id: UserId) {
    && id in users && users[id].name == name
    && forall other :: other in users && users[other].name == name ==> users[id].joinedAt <= users[other].joinedAt
  }

  /** Among users with distinct join times the oldest of a name is unique. */
  lemma OldestUnique(users: map<UserId, UserRow>, name: string, a: UserId, b: UserId)
    requires DistinctJoins(users) && IsOldest(users, name, a) && IsOldest(users, name, b)
    ensures a == b
  {
  }

  /** Some candidate joined no later than the others. */
  lemma {:induction false} EarliestExists(users: map<UserId, UserRow>, cands: set<UserId>)
    requires cands != {} && cands <= users.Keys
    ensures exists m :: m in cands && forall o :: o in cands ==> users[m].joinedAt <= users[o].joinedAt
    decreases cands
  {
    var x :| x in cands;
    if cands != {x} {
      EarliestExists(users, cands - {x});
      var m :| m in cands - {x} && forall o :: o in cands - {x} ==> users[m].joinedAt <= users[o].joinedAt;
      if users[x].joinedAt < users[m].joinedAt {
        assert forall o :: o in cands ==> users[x].joinedAt <= users[o].joinedAt;
      } else {
        assert forall o :: o in cands ==> users[m].joinedAt <= users[o].joinedAt;
      }
    }
  }

  /** `SELECT id FROM users WHERE name = ? ORDER BY joined_at ASC LIMIT 1`. */
  ghost function Oldest(users: map<UserId, UserRow>, name: string): (r: Option<UserId>)
    ensures r.None? <==> forall id :: id in users ==> users[id].name != name
    ensures r.Some? ==> IsOldest(users, name, r.value)
  {
    if exists id :: id in users && users[id].name == name then
      var cands := set id | id in users && users[id].name == name;
      var w :| w in users && users[w].name == name;
      assert w in cands;
      EarliestExists(users, cands);
      var m :| m in cands && forall o :: o in cands ==> users[m].joinedAt <= users[o].joinedAt;
      Some(m)
    else
      None
  }

  /** `_find_user_id_by_name`: the oldest user with the stripped name. */
  method FindUserIdByName(store: Store, name: string) returns (r: Option<UserId>)
    requires store.Valid()
    ensures r == Oldest(store.users, Strip(name))
  {
    var target := Strip(name);
    var users := store.users;
    var remaining := users.Keys;
    r := None;
    while remaining != {}
      invariant remaining <= users.Keys
      invariant r.None? ==> forall id :: id in users && id !in remaining ==> users[id].name != target
      invariant r.Some? ==> r.value in users && r.value !in remaining && users[r.value].name == target
      invariant r.Some? ==> forall id :: id in users && id !in remaining && users[id].name == target ==>
        users[r.value].joinedAt <= users[id].joinedAt
      decreases remaining
    {
      var id :| id in remaining;
      if users[id].name == target && (r.None? || users[id].joinedAt < users[r.value].joinedAt) {
        r := Some(id);
      }
      remaining := remaining - {id};
    }
    var o := Oldest(users, target);
    if r.Some? {
      OldestUnique(users, target, r.value, o.value);
    }
  }

  // ------------------------------------------------------------------
  // Invariants kept by join and submit_answer
  // ------------------------------------------------------------------

  /** No two users share a name. */
  ghost predicate UniqueNames(users: map<UserId, UserRow>) {
    forall a, b :: a in users && b in users && a != b ==> users[a].name != users[b].name
  }

  /** Every stage lies between 1 and one past the last. */
  ghost predicate StagesInRange(users: map<UserId, UserRow>) {
    forall id :: id in users ==> 1 <= users[id].stage <= MaxStage + 1
  }

  function Without(users: map<UserId, UserRow>, id: Option<UserId>): map<UserId, UserRow> {
    if id.Some? then users - {id.value} else users
  }

  /** The question served at a stage: the bank's for an active stage, and
      none once the stage is past the last. */
  function CurrentQuestion(store: Store, stage: int): (r: Option<Question>)
    reads store
    ensures stage > MaxStage ==> r.None?
    ensures stage <= MaxStage ==> r == store.FetchQuestion(stage)
  {
    if stage <= MaxStage then store.FetchQuestion(stage) else None
  }

  // ------------------------------------------------------------------
  // SessionService.join
  // ------------------------------------------------------------------

  /** `SessionService.join`. With `startNew` the oldest user of the stripped
      name is deleted and a fresh user at stage 1 created; without it that
      user is resumed unchanged, or created when there is none. */
  method Join(store: Store, name: string, startNew: bool) returns (resp: JoinResponse)
    requires store.Valid()
    modifies store
    ensures store.Valid()
    ensures store.questions == old(store.questions) && store.stats == old(store.stats)
    ensures store.GetUser(resp.user.id) == Some(resp.user)
    ensures resp.user.name == Strip(name)
    ensures resp.question == CurrentQuestion(store, resp.user.currentStage)
    ensures startNew ==>
      && resp.user.id !in old(store.users) && resp.user.currentStage == 1
      && store.users == Without(old(store.users), old(Oldest(store.users, Strip(name))))[resp.user.id := UserRow(Strip(name), 1, old(store.tick))]
    ensures !startNew && old(Oldest(store.users, Strip(name))).Some? ==>
      && Some(resp.user.id) == old(Oldest(store.users, Strip(name)))
      && store.users == old(store.users) && store.tick == old(store.tick)
    ensures !startNew && old(Oldest(store.users, Strip(name))).None? ==>
      && resp.user.id !in old(store.users) && resp.user.currentStage == 1
      && store.users == old(store.users)[resp.user.id := UserRow(Strip(name), 1, old(store.tick))]
    ensures old(UniqueNames(store.users)) ==> UniqueNames(store.users)
    ensures old(StagesInRange(store.users)) ==> StagesInRange(store.users)
  {
    ghost var users0, tick0 := store.users, store.tick;
    ghost var oldest := Oldest(users0, Strip(name));
    var user: Option<User> := None;
    var strippedName := Strip(name);
    StripIdempotent(name);
    var existingId := FindUserIdByName(store, strippedName);
    assert existingId == oldest;

    if startNew {
      if existingId.Some? {
        store.DeleteUser(existingId.value);
      }
      assert store.users == Without(users0, oldest);
      var newUserId := store.CreateUser(strippedName);
      user := store.GetUser(newUserId);
      assert store.tick == tick0 + 1 && newUserId.n == tick0;
      assert newUserId !in users0;
      NewUserKeepsInvariants(users0, strippedName, newUserId, UserRow(strippedName, 1, tick0));
    } else {
      if existingId.Some? {
        user := store.GetUser(existingId.value);
      }
      if user.None? {
        var newUserId := store.CreateUser(strippedName);
        user := store.GetUser(newUserId);
        NewUserKeepsInvariants(users0, strippedName, newUserId, UserRow(strippedName, 1, tick0));
      }
    }

    var currentQuestion: Option<Question> := None;
    if user.value.currentStage <= MaxStage {
      currentQuestion := store.FetchQuestion(user.value.currentStage);
    }
    resp := JoinResponse(user.value, currentQuestion);
  }

  /** Replacing the oldest user of a name (if any) by a new user of that
      name at stage 1 keeps names unique and stages in range. */
  lemma NewUserKeepsInvariants(users: map<UserId, UserRow>, name: string, id: UserId, row: UserRow)
    requires DistinctJoins(users)
    requires id !in users && row.name == name && row.stage == 1
    ensures var after := Without(users, Oldest(users, name))[id := row];
      && (UniqueNames(users) ==> UniqueNames(after))
      && (StagesInRange(users) ==> StagesInRange(after))
  {
    var gone := Oldest(users, name);
    var after := Without(users, gone)[id := row];
    if UniqueNames(users) && gone.Some? {
      assert forall o :: o in users && o != gone.value ==> users[o].name != name;
    }
  }

  // ------------------------------------------------------------------
  // SessionService.submit_answer
  // ------------------------------------------------------------------

  /** A positional argument of a Python call. */
  datatype PyArg = StrArg(s: string) | IntArg(i: int)

  /** Calling the two-parameter `DEFAULT_ANSWER_RULE` with positional
      arguments: any other number of them raises `TypeError` before the
      rule runs, and two arguments that are not both str make `lower()`
      raise `AttributeError`. */
  function CallDefaultAnswerRule(args: seq<PyArg>): (r: Result<bool, SessionError>)
    ensures |args| != 2 ==> r == Failure(RuleTypeError(2, |args|))
    ensures |args| == 2 && args[0].StrArg? && args[1].StrArg? ==> r == Success(DefaultAnswerRule(args[0].s, args[1].s))
    ensures |args| == 2 && !(args[0].StrArg? && args[1].StrArg?) ==> r == Failure(RuleAttributeError)
  {
    if |args| != 2 then Failure(RuleTypeError(2, |args|))
    else if args[0].StrArg? && args[1].StrArg? then Success(DefaultAnswerRule(args[0].s, args[1].s))
    else Failure(RuleAttributeError)
  }

  /** What a call of `submit_answer` leaves behind: the response or the
      exception, and the users and stats tables afterwards. */
  datatype Outcome = Outcome(r: Result<AttemptResponse, SessionError>, users: map<UserId, UserRow>, stats: map<string, int>)

  /** `submit_answer` on the tables before the call, with the answer check
      as a parameter. `check` receives what the source passes to the rule
      (the answer, the canonical answer and the stage) and either decides
      or raises. */
  function Submit(users: map<UserId, UserRow>, stats: map<string, int>, questions: seq<QuestionRow>,
                  userId: UserId, answer: string,
                  check: (string, string, int) -> Result<bool, SessionError>): Outcome
  {
    if userId !in users then Outcome(Failure(UnknownUser(userId)), users, stats)
    else
      var stage := users[userId].stage;
      if stage > MaxStage then Outcome(Success(AttemptResponse(false, true, None, AlreadyCompletedMessage)), users, stats)
      else match Fetch(questions, stage)
        case None => Outcome(Success(AttemptResponse(false, false, None, NoQuestionMessage(stage))), users, stats)
        case Some(q) =>
          match check(answer, q.answer, stage)
          case Failure(e) => Outcome(Failure(e), users, stats)
          case Success(false) =>
            Outcome(Success(AttemptResponse(false, false, Some(q), WrongAnswerMessage)), users, Upsert(stats, WrongStat, 1))
          case Success(true) =>
            Outcome(Success(Advanced(questions, stage)),
                    users[userId := users[userId].(stage := stage + 1)], Upsert(stats, CorrectStat, 1))
  }

  /** The response to a correct answer on `stage`: victory past the last
      stage, else the next stage's question. */
  function Advanced(questions: seq<QuestionRow>, stage: int): AttemptResponse {
    if stage + 1 > MaxStage then AttemptResponse(true, true, None, VictoryMessage)
    else
      var next := Fetch(questions, stage + 1);
      AttemptResponse(true, false, next, if next.Some? then NextChallengeMessage else NextQuestionMissingMessage)
  }

  /** `submit_answer` with the answer check as a parameter, over the store. */
  method SubmitAnswerWith(store: Store, userId: UserId, answer: string,
                          check: (string, string, int) -> Result<bool, SessionError>)
    returns (r: Result<AttemptResponse, SessionError>)
    requires store.Valid()
    modifies store
    ensures store.Valid()
    ensures store.questions == old(store.questions) && store.tick == old(store.tick)
    ensures Outcome(r, store.users, store.stats)
         == Submit(old(store.users), old(store.stats), store.questions, userId, answer, check)
  {
    ghost var users0, stats0 := store.users, store.stats;
    var user := store.GetUser(userId);
    if user.None? {
      return Failure(UnknownUser(userId));
    }
    var currentStage := user.value.currentStage;
    assert currentStage == users0[userId].stage;
    if currentStage > MaxStage {
      return Success(AttemptResponse(false, true, None, AlreadyCompletedMessage));
    }
    var currentQuestion := store.FetchQuestion(currentStage);
    if currentQuestion.None? {
      return Success(AttemptResponse(false, false, None, NoQuestionMessage(currentStage)));
    }
    var outcome := check(answer, currentQuestion.value.answer, currentStage);
    if outcome.Failure? {
      return Failure(outcome.error);
    }
    if outcome.value {
      var response := Advance(store, userId, currentStage);
      return Success(response);
    }
    store.IncrementStat(WrongStat, 1);
    r := Success(AttemptResponse(false, false, currentQuestion, WrongAnswerMessage));
  }

  /** The correct-answer branch of `submit_answer`: count it, move the
      player one stage up, and answer with `Advanced`. */
  method Advance(store: Store, userId: UserId, stage: int) returns (r: AttemptResponse)
    requires store.Valid() && userId in store.users && store.users[userId].stage == stage
    modifies store
    ensures store.Valid()
    ensures store.questions == old(store.questions) && store.tick == old(store.tick)
    ensures store.users == old(store.users)[userId := old(store.users[userId]).(stage := stage + 1)]
    ensures store.stats == Upsert(old(store.stats), CorrectStat, 1)
    ensures r == Advanced(store.questions, stage)
  {
    store.IncrementStat(CorrectStat, 1);
    var nextStage := stage + 1;
    store.UpdateUserStage(userId, nextStage);
    var responseMessage := "";
    var nextQuestion: Option<Question> := None;
    var hasWon := false;
    if nextStage > MaxStage {
      hasWon := true;
      responseMessage := VictoryMessage;
    } else {
      nextQuestion := store.FetchQuestion(nextStage);
      responseMessage := NextChallengeMessage;
      if nextQuestion.None? {
        responseMessage := NextQuestionMissingMessage;
      }
    }
    r := AttemptResponse(true, hasWon, nextQuestion, responseMessage);
  }

  /** How `submit_answer` calls the rule as written: with three positional
      arguments. */
  function AsWrittenCheck(answer: string, canonical: string, stage: int): Result<bool, SessionError> {
    CallDefaultAnswerRule([StrArg(answer), StrArg(canonical), IntArg(stage)])
  }

  /** The rule applied to the two arguments it takes. */
  function TwoArgumentCheck(rule: (string, string) -> bool): (string, string, int) -> Result<bool, SessionError> {
    (answer: string, canonical: string, stage: int) => Success(rule(answer, canonical))
  }

  /** `submit_answer` as written, which calls the rule with three
      positional arguments. */
  method SubmitAnswerAsWritten(store: Store, userId: UserId, answer: string)
    returns (r: Result<AttemptResponse, SessionError>)
    requires store.Valid()
    modifies store
    ensures store.Valid()
    ensures store.questions == old(store.questions) && store.tick == old(store.tick)
    ensures Outcome(r, store.users, store.stats)
         == Submit(old(store.users), old(store.stats), store.questions, userId, answer, AsWrittenCheck)
  {
    r := SubmitAnswerWith(store, userId, answer, AsWrittenCheck);
  }

  /** `submit_answer` with the rule called on (answer, canonical), as the
      two-parameter rule requires. */
  method SubmitAnswer(store: Store, userId: UserId, answer: string, rule: (string, string) -> bool)
    returns (r: Result<AttemptResponse, SessionError>)
    requires store.Valid()
    modifies store
    ensures store.Valid()
    ensures store.questions == old(store.questions) && store.tick == old(store.tick)
    ensures Outcome(r, store.users, store.stats)
         == Submit(old(store.users), old(store.stats), store.questions, userId, answer, TwoArgumentCheck(rule))
  {
    r := SubmitAnswerWith(store, userId, answer, TwoArgumentCheck(rule));
  }

  // ------------------------------------------------------------------
  // Properties of submit_answer
  // ------------------------------------------------------------------

  /** How often a counter was bumped: a missing key reads as zero. */
  function Count(stats: map<string, int>, key: string): int {
    if key in stats then stats[key] else 0
  }

  /** The response reports a correct answer. */
  predicate Correct(r: Result<AttemptResponse, SessionError>) {
    r.Success? && r.value.correct
  }

  /** Only the submitting player's stage can change, and it rises by one
      exactly when the answer was correct. */
  lemma SubmitMovesOnePlayer(users: map<UserId, UserRow>, stats: map<string, int>, questions: seq<QuestionRow>,
                             userId: UserId, answer: string, check: (string, string, int) -> Result<bool, SessionError>)
    ensures var o := Submit(users, stats, questions, userId, answer, check);
      && o.users.Keys == users.Keys
      && (forall id :: id in users && id != userId ==> o.users[id] == users[id])
      && (userId in users ==>
            o.users[userId] == users[userId].(stage := users[userId].stage + if Correct(o.r) then 1 else 0))
      && (userId !in users ==> o.users == users && !Correct(o.r))
  {
  }

  /** An exception leaves both tables as they were, and an unknown player
      gets one. */
  lemma SubmitFailureChangesNothing(users: map<UserId, UserRow>, stats: map<string, int>, questions: seq<QuestionRow>,
                                    userId: UserId, answer: string, check: (string, string, int) -> Result<bool, SessionError>)
    ensures var o := Submit(users, stats, questions, userId, answer, check);
      && (o.r.Failure? ==> o.users == users && o.stats == stats)
      && (userId !in users ==> o.r == Failure(UnknownUser(userId)))
  {
  }

  /** Victory is reported exactly when the player ends up past the last
      stage. */
  lemma SubmitVictory(users: map<UserId, UserRow>, stats: map<string, int>, questions: seq<QuestionRow>,
                      userId: UserId, answer: string, check: (string, string, int) -> Result<bool, SessionError>)
    ensures var o := Submit(users, stats, questions, userId, answer, check);
      (o.r.Success? && o.r.value.victory) <==> (userId in users && o.users[userId].stage > MaxStage)
  {
  }

  /** Every checked answer bumps exactly one counter by one: the correct
      counter for a correct answer, the wrong counter for an answer that
      is refused with the question served again. */
  lemma SubmitCounts(users: map<UserId, UserRow>, stats: map<string, int>, questions: seq<QuestionRow>,
                     userId: UserId, answer: string, check: (string, string, int) -> Result<bool, SessionError>)
    ensures var o := Submit(users, stats, questions, userId, answer, check);
      var wrong := o.r.Success? && !o.r.value.correct && o.r.value.question.Some?;
      && Count(o.stats, CorrectStat) == Count(stats, CorrectStat) + (if Correct(o.r) then 1 else 0)
      && Count(o.stats, WrongStat) == Count(stats, WrongStat) + (if wrong then 1 else 0)
      && (forall k :: k in stats && k != CorrectStat && k != WrongStat ==> o.stats[k] == stats[k])
      && stats.Keys <= o.stats.Keys <= stats.Keys + {CorrectStat, WrongStat}
      && (!Correct(o.r) && !wrong ==> o.stats == stats)
  {
  }

  /** The question served: a wrong answer gets the same question again, a
      correct one short of victory gets the question of the new stage. */
  lemma SubmitServesQuestion(users: map<UserId, UserRow>, stats: map<string, int>, questions: seq<QuestionRow>,
                             userId: UserId, answer: string, check: (string, string, int) -> Result<bool, SessionError>)
    ensures var o := Submit(users, stats, questions, userId, answer, check);
      && (o.r.Success? && o.r.value.question.Some? ==> userId in users && users[userId].stage <= MaxStage)
      && (o.r.Success? && !o.r.value.correct && o.r.value.question.Some? ==>
            o.r.value.question == Fetch(questions, users[userId].stage) && o.r.value.message == WrongAnswerMessage)
      && (Correct(o.r) && !o.r.value.victory ==>
            userId in users && o.r.value.question == Fetch(questions, o.users[userId].stage))
  {
  }

  /** A victory response never carries a question. */
  lemma VictoryNoQuestion(users: map<UserId, UserRow>, stats: map<string, int>, questions: seq<QuestionRow>,
                          userId: UserId, answer: string, check: (string, string, int) -> Result<bool, SessionError>)
    ensures var o := Submit(users, stats, questions, userId, answer, check);
      o.r.Success? && o.r.value.victory ==> o.r.value.question.None?
  {
  }

  /** A player already past the last stage is told so, is not counted as
      correct, gets no question, and both tables stay as they were. */
  lemma AlreadyWon(users: map<UserId, UserRow>, stats: map<string, int>, questions: seq<QuestionRow>,
                   userId: UserId, answer: string, check: (string, string, int) -> Result<bool, SessionError>)
    ensures userId in users && users[userId].stage > MaxStage ==>
      Submit(users, stats, questions, userId, answer, check)
        == Outcome(Success(AttemptResponse(false, true, None, AlreadyCompletedMessage)), users, stats)
  {
  }

  /** `submit_answer` keeps names unique, join times distinct and stages
      in range. */
  lemma SubmitKeepsInvariants(users: map<UserId, UserRow>, stats: map<string, int>, questions: seq<QuestionRow>,
                              userId: UserId, answer: string, check: (string, string, int) -> Result<bool, SessionError>)
    ensures var o := Submit(users, stats, questions, userId, answer, check);
      && (UniqueNames(users) ==> UniqueNames(o.users))
      && (StagesInRange(users) ==> StagesInRange(o.users))
      && (DistinctJoins(users) ==> DistinctJoins(o.users))
  {
    SubmitMovesOnePlayer(users, stats, questions, userId, answer, check);
  }

  /** As written, every answer from a player on an active stage with a
      question raises `TypeError` and changes nothing. */
  lemma AsWrittenAlwaysRaises(users: map<UserId, UserRow>, stats: map<string, int>, questions: seq<QuestionRow>,
                              userId: UserId, answer: string)
    requires userId in users && users[userId].stage <= MaxStage && Fetch(questions, users[userId].stage).Some?
    ensures Submit(users, stats, questions, userId, answer, AsWrittenCheck)
         == Outcome(Failure(RuleTypeError(2, 3)), users, stats)
  {
  }

  /** As written, no player ever moves up a stage. */
  lemma AsWrittenNobodyAdvances(users: map<UserId, UserRow>, stats: map<string, int>, questions: seq<QuestionRow>,
                                userId: UserId, answer: string)
    ensures Submit(users, stats, questions, userId, answer, AsWrittenCheck).users == users
    ensures !Correct(Submit(users, stats, questions, userId, answer, AsWrittenCheck).r)
  {
  }

  /** With the rule called on two arguments nothing raises for a known
      player, and the rule alone decides whether the answer is correct. */
  lemma CorrectedRuleDecides(users: map<UserId, UserRow>, stats: map<string, int>, questions: seq<QuestionRow>,
                             userId: UserId, answer: string, rule: (string, string) -> bool)
    ensures var o := Submit(users, stats, questions, userId, answer, TwoArgumentCheck(rule));
      && (o.r.Failure? <==> userId !in users)
      && (userId in users && users[userId].stage <= MaxStage && Fetch(questions, users[userId].stage).Some? ==>
            (Correct(o.r) <==> rule(answer, Fetch(questions, users[userId].stage).value.answer)))
  {
  }

  /** With the default rule, submitting the canonical answer itself moves
      the player up one stage. */
  lemma CorrectedAcceptsCanonical(users: map<UserId, UserRow>, stats: map<string, int>, questions: seq<QuestionRow>,
                                  userId: UserId)
    requires userId in users && users[userId].stage <= MaxStage && Fetch(questions, users[userId].stage).Some?
    ensures var canonical := Fetch(questions, users[userId].stage).value.answer;
      var o := Submit(users, stats, questions, userId, canonical, TwoArgumentCheck(DefaultAnswerRule));
      Correct(o.r) && o.users[userId].stage == users[userId].stage + 1
  {
    var canonical := Fetch(questions, users[userId].stage).value.answer;
    ExactMatchIsEquivalence(canonical, canonical, canonical);
  }
}
