/**
 * The three tables of the database as an in-memory store: `users` keyed by
 * id, `questions` in insertion order, and the `stats` counters. The random
 * UUIDs of new users and the `joined_at` timestamps are both drawn from one
 * insertion counter, `tick`.
 */
module Db {
  import opened Wrappers
  import opened Strings

  datatype UserId = UserId(n: nat)

  /** A row of `users`; the id is its key. */
  datatype UserRow = UserRow(name: string, stage: int, joinedAt: nat)

  /** The dictionary `get_user` returns. */
  datatype User = User(id: UserId, name: string, currentStage: int)

  /** A row of `questions`. */
  datatype QuestionRow = QuestionRow(id: string, stage: int, prompt: string, answer: string)

  /** The dictionary `fetch_question` returns: the row without its stage,
      canonical answer included. */
  datatype Question = Question(id: string, prompt: string, answer: string)

  function QuestionOf(row: QuestionRow): Question {
    Question(row.id, row.prompt, row.answer)
  }

  /** No two users joined at the same instant. */
  ghost predicate DistinctJoins(users: map<UserId, UserRow>) {
    forall a, b :: a in users && b in users && a != b ==> users[a].joinedAt != users[b].joinedAt
  }

  /** The first row of a stage, in insertion order, if there is one. */
  function FirstOfStage(rows: seq<QuestionRow>, stage: int): (r: Option<QuestionRow>)
    ensures r.None? <==> forall k :: 0 <= k < |rows| ==> rows[k].stage != stage
    ensures r.Some? ==> r.value in rows && r.value.stage == stage
  {
    if rows == [] then None
    else if rows[0].stage == stage then Some(rows[0])
    else FirstOfStage(rows[1..], stage)
  }

  /** `fetch_question` over the rows of the questions table: the question
      of the first row of that stage, with its answer. */
  function Fetch(questions: seq<QuestionRow>, stage: int): Option<Question> {
    match FirstOfStage(questions, stage)
    case None => None
    case Some(row) => Some(QuestionOf(row))
  }

  /** `fetch_question(s)` finds nothing exactly when no row has stage `s`,
      and otherwise the question of a row of that stage. */
  lemma FetchFinds(questions: seq<QuestionRow>, stage: int)
    ensures Fetch(questions, stage).None? <==> forall k :: 0 <= k < |questions| ==> questions[k].stage != stage
    ensures Fetch(questions, stage).Some? ==>
      exists k :: 0 <= k < |questions| && questions[k].stage == stage && Fetch(questions, stage).value == QuestionOf(questions[k])
  {
    var r := FirstOfStage(questions, stage);
    if r.Some? {
      var k :| 0 <= k < |questions| && questions[k] == r.value;
    }
  }

  /** `INSERT ... ON CONFLICT(key) DO UPDATE SET value = value + delta`:
      a missing key starts at `delta`, an existing one grows by `delta`,
      and no other key changes. */
  function Upsert(m: map<string, int>, key: string, delta: int): (r: map<string, int>)
    ensures r.Keys == m.Keys + {key}
    ensures key !in m ==> r[key] == delta
    ensures key in m ==> r[key] == m[key] + delta
    ensures forall k :: k in m && k != key ==> r[k] == m[k]
  {
    m[key := if key in m then m[key] + delta else delta]
  }

  class Store {
    var users: map<UserId, UserRow>
    var questions: seq<QuestionRow>
    var stats: map<string, int>
    /** The next user id and the next `joined_at` value. */
    var tick: nat

    /** Every id and join time was issued before `tick`, and no two users
        share a join time. */
    ghost predicate Valid()
      reads this`users, this`tick
    {
      && (forall id :: id in users ==> id.n < tick && users[id].joinedAt < tick)
      && DistinctJoins(users)
    }

    /** The freshly migrated database: three empty tables. */
    constructor ()
      ensures Valid()
      ensures users == map[] && questions == [] && stats == map[]
    {
      users, questions, stats, tick := map[], [], map[], 0;
    }

    /** `create_user`: a new user with a fresh id, the stripped name and
        stage 1. */
    method CreateUser(name: string) returns (id: UserId)
      requires Valid()
      modifies this
      ensures Valid()
      ensures id !in old(users) && id.n == old(tick)
      ensures users == old(users)[id := UserRow(Strip(name), 1, old(tick))]
      ensures questions == old(questions) && stats == old(stats) && tick == old(tick) + 1
    {
      id := UserId(tick);
      users := users[id := UserRow(Strip(name), 1, tick)];
      tick := tick + 1;
    }

    /** `get_user`: none exactly when the id is absent, else its id, name and stage. */
    function GetUser(id: UserId): (r: Option<User>)
      reads this`users
      ensures r.None? <==> id !in users
      ensures r.Some? ==> r.value.id == id && r.value.name == users[id].name && r.value.currentStage == users[id].stage
    {
      if id in users then Some(User(id, users[id].name, users[id].stage)) else None
    }

    /** `update_user_stage`: only the stage of the given user changes; an
        absent id changes nothing. */
    method UpdateUserStage(id: UserId, newStage: int)
      requires Valid()
      modifies this
      ensures Valid()
      ensures users.Keys == old(users).Keys
      ensures id in old(users) ==> users == old(users)[id := old(users)[id].(stage := newStage)]
      ensures id !in old(users) ==> users == old(users)
      ensures forall other :: other in old(users) && other != id ==> users[other] == old(users)[other]
      ensures questions == old(questions) && stats == old(stats) && tick == old(tick)
    {
      if id in users {
        users := users[id := users[id].(stage := newStage)];
      }
    }

    /** `delete_user`: exactly the given id goes; everyone else stays. */
    method DeleteUser(id: UserId)
      requires Valid()
      modifies this
      ensures Valid()
      ensures users == old(users) - {id}
      ensures questions == old(questions) && stats == old(stats) && tick == old(tick)
    {
      users := users - {id};
    }

    /** `fetch_question` on this store. */
    function FetchQuestion(stage: int): Option<Question>
      reads this`questions
    {
      Fetch(questions, stage)
    }

    /** `increment_stat`. */
    method IncrementStat(key: string, delta: int)
      requires Valid()
      modifies this
      ensures Valid()
      ensures stats == Upsert(old(stats), key, delta)
      ensures users == old(users) && questions == old(questions) && tick == old(tick)
    {
      stats := Upsert(stats, key, delta);
    }

    /** `DELETE FROM questions`. */
    method DeleteAllQuestions()
      requires Valid()
      modifies this
      ensures Valid()
      ensures questions == []
      ensures users == old(users) && stats == old(stats) && tick == old(tick)
    {
      questions := [];
    }

    /** `executemany("INSERT INTO questions ...", rows)`: the rows are
        added after the existing ones, in order. */
    method InsertQuestions(rows: seq<QuestionRow>)
      requires Valid()
      modifies this
      ensures Valid()
      ensures questions == old(questions) + rows
      ensures users == old(users) && stats == old(stats) && tick == old(tick)
    {
      questions := questions + rows;
    }
  }
}
