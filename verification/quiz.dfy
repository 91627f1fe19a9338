/** `POST /quizzes`: draw one question the player has not yet seen from the
    requested category (id 0 standing for every category). The random draw
    `random.randrange(len(unanswered))` is the parameter `draw`. */
module Quiz {
  import opened Replies
  import opened Bank

  /** The JSON body; a missing or `null` field (or a `quiz_category` without `id`) is `None`. */
  datatype QuizBody = QuizBody(quizCategory: Option<int>, previousQuestions: Option<seq<string>>)

  /** The category id that means "any category". */
  const AnyCategory := 0

  /** `q` is in the pool of quiz category `c`. */
  predicate InPool(c: int, q: Question) {
    c == AnyCategory || q.category == c
  }

  /** The pool: every question, or those of one category, in id order. */
  function Pool(qs: seq<Question>, c: int): seq<Question> {
    if c == AnyCategory then qs else Filter(qs, (q: Question) => q.category == c)
  }

  /** The questions of the pool whose text the player has not been asked yet. */
  function Unanswered(pool: seq<Question>, previous: seq<string>): seq<Question> {
    Filter(pool, (q: Question) => q.question !in previous)
  }

  /** What the draw chooses from: empty when the body is malformed. */
  function Candidates(qs: seq<Question>, body: QuizBody): (r: seq<Question>)
    ensures forall q :: q in r <==>
      body.quizCategory.Some? && body.previousQuestions.Some? &&
      q in qs && InPool(body.quizCategory.value, q) && q.question !in body.previousQuestions.value
  {
    match (body.quizCategory, body.previousQuestions)
    case (Some(c), Some(previous)) => Unanswered(Pool(qs, c), previous)
    case _ => []
  }

  /** The handler. `draw` is the random index, below the number of candidates
      whenever there is one. A malformed body, or a pool whose every text has
      already been asked, is 422. */
  function GetQuizQuestion(bank: Bank, body: QuizBody, draw: nat): (r: Reply<Question>)
    requires |Candidates(bank.questions, body)| == 0 || draw < |Candidates(bank.questions, body)|
    ensures !r.NotFound?
    ensures r.Ok? ==>
      && body.quizCategory.Some? && body.previousQuestions.Some?
      && r.body in bank.questions
      && InPool(body.quizCategory.value, r.body)
      && r.body.question !in body.previousQuestions.value
    ensures r.Unprocessable? <==>
      || body.quizCategory.None?
      || body.previousQuestions.None?
      || forall q :: q in bank.questions && InPool(body.quizCategory.value, q) ==>
           q.question in body.previousQuestions.value
  {
    var candidates := Candidates(bank.questions, body);
    if body.quizCategory.None? || body.previousQuestions.None? then Unprocessable
    else if |candidates| == 0 then
      Unprocessable
    else
      assert candidates[0] in candidates;
      Ok(candidates[draw])
  }

  /** Every unseen question of the pool can be drawn: some index yields it. */
  lemma EveryCandidateCanBeDrawn(bank: Bank, c: int, previous: seq<string>, q: Question)
    requires q in bank.questions && InPool(c, q) && q.question !in previous
    ensures exists draw: nat ::
      draw < |Candidates(bank.questions, QuizBody(Some(c), Some(previous)))| &&
      GetQuizQuestion(bank, QuizBody(Some(c), Some(previous)), draw) == Ok(q)
  {
    var candidates := Candidates(bank.questions, QuizBody(Some(c), Some(previous)));
    assert q in candidates;
    var draw :| 0 <= draw < |candidates| && candidates[draw] == q;
    assert GetQuizQuestion(bank, QuizBody(Some(c), Some(previous)), draw) == Ok(q);
  }

  /** Different indices draw different questions, so a uniform index is a
      uniform choice among the unseen questions. */
  lemma DrawIsInjective(bank: Bank, body: QuizBody, i: nat, j: nat)
    requires Valid(bank)
    requires i < |Candidates(bank.questions, body)| && j < |Candidates(bank.questions, body)|
    requires i != j
    ensures GetQuizQuestion(bank, body, i) != GetQuizQuestion(bank, body, j)
  {
  }

  /** A fresh quiz over every category on a non-empty bank always yields a question. */
  lemma FreshQuizSucceeds(bank: Bank, draw: nat)
    requires |bank.questions| > 0
    requires draw < |bank.questions|
    ensures |Candidates(bank.questions, QuizBody(Some(AnyCategory), Some([])))| == |bank.questions|
    ensures GetQuizQuestion(bank, QuizBody(Some(AnyCategory), Some([])), draw).Ok?
  {
    var candidates := Candidates(bank.questions, QuizBody(Some(AnyCategory), Some([])));
    assert candidates == Filter(bank.questions, (q: Question) => q.question !in []);
    FilterKeepsAll(bank.questions, (q: Question) => q.question !in []);
    assert bank.questions[0] in candidates;
  }

  /** A quiz run makes progress: once the player adds the drawn question's
      text to `previous_questions`, strictly fewer candidates remain, so a run
      over a finite pool ends in 422 after at most `|pool|` questions. */
  lemma AskingShrinksCandidates(bank: Bank, c: int, previous: seq<string>, draw: nat)
    requires draw < |Candidates(bank.questions, QuizBody(Some(c), Some(previous)))|
    ensures GetQuizQuestion(bank, QuizBody(Some(c), Some(previous)), draw).Ok?
    ensures var asked := GetQuizQuestion(bank, QuizBody(Some(c), Some(previous)), draw).body;
      |Candidates(bank.questions, QuizBody(Some(c), Some(previous + [asked.question])))| <
      |Candidates(bank.questions, QuizBody(Some(c), Some(previous)))|
  {
    var candidates := Candidates(bank.questions, QuizBody(Some(c), Some(previous)));
    var asked := candidates[draw];
    assert asked in candidates;
    var pool := Pool(bank.questions, c);
    assert asked in pool;
    FilterShrinks(pool,
      (q: Question) => q.question !in previous,
      (q: Question) => q.question !in previous + [asked.question],
      asked);
  }
}
