/** The route handlers of the trivia API with HTTP and SQLAlchemy stripped
    away: each takes the store (and, for writes, returns the store after the
    write) together with the parsed request, and answers with a `Reply`. */
module Routes {
  import opened Replies
  import opened Bank
  import opened Pager
  import opened Text
  import opened Categories

  /** The answer of a handler that may write, with the store it leaves behind. */
  datatype Effect<+T> = Effect(after: Bank, reply: Reply<T>)

  /** Body of `GET /categories`. */
  datatype CategoryList = CategoryList(categories: map<int, string>)

  /** Body of `GET /questions`. */
  datatype QuestionList = QuestionList(
    categories: map<int, string>,
    questions: seq<Question>,
    currentCategory: int,
    totalQuestions: nat)

  /** Body of `DELETE /questions/<id>`. */
  datatype Deleted = Deleted(deleted: int, currentQuestions: seq<Question>)

  /** Body of `POST /questions`: it searches or creates, and the two answers
      carry differently named fields. */
  datatype Posted =
    | Searched(questions: seq<Question>, totalQuestions: nat, currentCategory: string)
    | Created(totalQuestions: nat, questions: seq<Question>)

  /** The JSON body of `POST /questions`; an absent or empty `searchTerm` is `""`. */
  datatype PostBody = PostBody(question: string, answer: string, category: int, difficulty: int, searchTerm: string)

  /** Body of `GET /categories/<id>/questions`. */
  datatype CategoryQuestions = CategoryQuestions(questions: seq<Question>, totalQuestions: nat, currentCategory: string)

  /** The category name every search answer reports, whatever was searched. */
  const SearchCategory := "History"

  /** Questions whose text contains `term`, ignoring case, in id order. */
  function SearchMatches(qs: seq<Question>, term: string): seq<Question> {
    Filter(qs, (q: Question) => ILike(q.question, term))
  }

  /** Questions of category `c`. */
  function InCategory(qs: seq<Question>, c: int): seq<Question> {
    Filter(qs, (q: Question) => q.category == c)
  }

  /** The store with question `id` deleted. */
  function Remove(qs: seq<Question>, id: int): seq<Question> {
    Filter(qs, (q: Question) => q.id != id)
  }

  /** In a sorted store an id names exactly one question, so deleting it
      removes exactly one row. */
  lemma {:induction false} RemoveDropsOne(qs: seq<Question>, id: int)
    requires QuestionsSorted(qs)
    requires id in QuestionIds(qs)
    ensures |Remove(qs, id)| == |qs| - 1
  {
    assert qs != [];
    if qs[0].id == id {
      assert id !in QuestionIds(qs[1..]) by {
        forall q | q in qs[1..] ensures q.id != id {
          var k :| 0 <= k < |qs[1..]| && qs[1..][k] == q;
          assert qs[1 + k] == q;
        }
      }
      RemoveKeepsAllWhenAbsent(qs[1..], id);
    } else {
      assert id in QuestionIds(qs[1..]) by {
        var q :| q in qs && q.id == id;
        assert q != qs[0];
      }
      RemoveDropsOne(qs[1..], id);
    }
  }

  /** Deleting an id that is absent removes nothing. */
  lemma {:induction false} RemoveKeepsAllWhenAbsent(qs: seq<Question>, id: int)
    requires id !in QuestionIds(qs)
    ensures Remove(qs, id) == qs
  {
    if qs != [] {
      assert id !in QuestionIds(qs[1..]) by {
        assert forall q :: q in qs[1..] ==> q in qs;
      }
      RemoveKeepsAllWhenAbsent(qs[1..], id);
      assert qs == [qs[0]] + qs[1..];
    }
  }

  /** `GET /categories`: every category id mapped to its name. */
  method GetCategories(bank: Bank) returns (r: Reply<CategoryList>)
    requires Valid(bank)
    ensures r.Ok?
    ensures r.body.categories.Keys == CategoryIds(bank.categories)
    ensures forall c :: c in bank.categories ==> r.body.categories[c.id] == c.name
  {
    var m := BuildCategories(bank.categories);
    r := Ok(CategoryList(m));
  }

  /** `GET /questions?page=&category=`: one page of the id-ordered store. An
      empty page is 404; otherwise the total is the size of the whole store.
      `currentCategory` is echoed from the query string (default 1). */
  method GetQuestions(bank: Bank, page: int, currentCategory: int) returns (r: Reply<QuestionList>)
    requires Valid(bank)
    ensures !r.Unprocessable?
    ensures r.NotFound? <==> Paginate(bank.questions, page) == []
    ensures page >= 1 ==> (r.NotFound? <==> (page - 1) * QuestionsPerPage >= |bank.questions|)
    ensures r.Ok? ==>
      && r.body.questions == Paginate(bank.questions, page)
      && r.body.totalQuestions == |bank.questions|
      && r.body.currentCategory == currentCategory
      && r.body.categories.Keys == CategoryIds(bank.categories)
      && (forall c :: c in bank.categories ==> r.body.categories[c.id] == c.name)
  {
    var paginated := Paginate(bank.questions, page);
    var categories := BuildCategories(bank.categories);
    if |paginated| == 0 {
      r := NotFound;
    } else {
      r := Ok(QuestionList(categories, paginated, currentCategory, |bank.questions|));
    }
  }

  /** `DELETE /questions/<id>`: 422 for an unknown id, with the store
      untouched; otherwise exactly that question goes and the requested page of the
      remaining store is listed. */
  function DeleteQuestion(bank: Bank, id: nat, page: int): (e: Effect<Deleted>)
    requires Valid(bank)
    ensures Valid(e.after)
    ensures e.after.categories == bank.categories
    ensures !e.reply.NotFound?
    ensures e.reply.Unprocessable? <==> id !in QuestionIds(bank.questions)
    ensures e.reply.Unprocessable? ==> e.after == bank
    ensures e.reply.Ok? ==>
      && e.reply.body.deleted == id
      && (forall q :: q in e.after.questions <==> q in bank.questions && q.id != id)
      && |e.after.questions| == |bank.questions| - 1
      && e.reply.body.currentQuestions == Paginate(e.after.questions, page)
  {
    match FindQuestion(bank.questions, id)
    case None => Effect(bank, Unprocessable)
    case Some(_) =>
      RemoveDropsOne(bank.questions, id);
      var after := bank.(questions := Remove(bank.questions, id));
      Effect(after, Ok(Deleted(id, Paginate(after.questions, page))))
  }

  /** The search branch of `POST /questions`: one page of the matches in id
      order. The total reported is the size of the whole store, not the
      number of matches. */
  function SearchQuestions(qs: seq<Question>, term: string, page: int): (r: Posted)
    requires QuestionsSorted(qs)
    ensures r.Searched?
    ensures r.totalQuestions == |qs|
    ensures r.currentCategory == SearchCategory
    ensures r.questions == Paginate(SearchMatches(qs, term), page)
    ensures QuestionsSorted(r.questions)
    ensures forall q :: q in r.questions ==> q in qs && ContainsIgnoringCase(q.question, term)
  {
    var matches := SearchMatches(qs, term);
    var current := Paginate(matches, page);
    SearchMatchesExactly(qs, term);
    PageOfSorted(matches, page);
    Searched(current, |qs|, SearchCategory)
  }

  /** The create branch of `POST /questions`: the new row, under the id the
      database assigns, goes after every existing row of the id-ordered scan. */
  function CreateQuestion(bank: Bank, body: PostBody, page: int, newId: nat): (e: Effect<Posted>)
    requires Valid(bank)
    requires forall q :: q in bank.questions ==> q.id < newId
    ensures Valid(e.after)
    ensures e.after.categories == bank.categories
    ensures e.after.questions ==
      bank.questions + [Question(newId, body.question, body.answer, body.category, body.difficulty)]
    ensures e.reply.Ok? && e.reply.body.Created?
    ensures e.reply.body.totalQuestions == |bank.questions| + 1
    ensures e.reply.body.questions == Paginate(e.after.questions, page)
  {
    var created := Question(newId, body.question, body.answer, body.category, body.difficulty);
    var after := bank.(questions := bank.questions + [created]);
    Effect(after, Ok(Created(|after.questions|, Paginate(after.questions, page))))
  }

  /** `POST /questions`. A truthy `searchTerm` wins over the question fields:
      the store is searched and left unchanged. Otherwise a question is created
      under `newId`, the id the database assigns, which exceeds every id
      already used. */
  function InsertQuestion(bank: Bank, body: PostBody, page: int, newId: nat): (e: Effect<Posted>)
    requires Valid(bank)
    requires forall q :: q in bank.questions ==> q.id < newId
    ensures e.reply.Ok?
    ensures Valid(e.after)
    ensures e.after.categories == bank.categories
    ensures body.searchTerm != [] ==>
      && e.after == bank
      && e.reply.body.Searched?
      && e.reply.body.currentCategory == SearchCategory
      && e.reply.body.questions == Paginate(SearchMatches(bank.questions, body.searchTerm), page)
      && e.reply.body.totalQuestions == |bank.questions|
    ensures body.searchTerm == [] ==>
      && e.reply.body.Created?
      && e.after.questions ==
           bank.questions + [Question(newId, body.question, body.answer, body.category, body.difficulty)]
      && e.reply.body.totalQuestions == |bank.questions| + 1
      && e.reply.body.questions == Paginate(e.after.questions, page)
  {
    if body.searchTerm != [] then
      Effect(bank, Ok(SearchQuestions(bank.questions, body.searchTerm, page)))
    else
      CreateQuestion(bank, body, page, newId)
  }

  /** `GET /categories/<id>/questions`: the questions of that category. The
      query has no ordering clause, so the page is promised to be the
      requested page of some ordering of the category's rows, not of the id
      order in particular. An unknown category is 404. */
  function GetCategorizedQuestions(bank: Bank, categoryId: nat, page: int): (r: Reply<CategoryQuestions>)
    requires Valid(bank)
    ensures !r.Unprocessable?
    ensures r.NotFound? <==> categoryId !in CategoryIds(bank.categories)
    ensures r.Ok? ==>
      && (forall q :: q in r.body.questions ==> q in bank.questions && q.category == categoryId)
      && r.body.totalQuestions == |set q | q in bank.questions && q.category == categoryId|
      && (exists c :: c in bank.categories && c.id == categoryId && r.body.currentCategory == c.name)
    ensures r.Ok? ==>
      && |r.body.questions| == |Paginate(InCategory(bank.questions, categoryId), page)|
      && exists rows: seq<Question> ::
           multiset(rows) == multiset(InCategory(bank.questions, categoryId)) &&
           r.body.questions == Paginate(rows, page)
  {
    var filtered := InCategory(bank.questions, categoryId);
    var paginated := Paginate(filtered, page);
    assert forall q :: q in paginated ==> q in filtered;
    match FindCategory(bank.categories, categoryId)
    case None => NotFound
    case Some(c) =>
      SortedCount(filtered);
      assert (set q | q in filtered) == (set q | q in bank.questions && q.category == categoryId);
      Ok(CategoryQuestions(paginated, |filtered|, c.name))
  }

  /** A page of an id-ordered selection is an id-ordered part of it. */
  lemma PageOfSorted(qs: seq<Question>, page: int)
    requires QuestionsSorted(qs)
    ensures QuestionsSorted(Paginate(qs, page))
    ensures forall q :: q in Paginate(qs, page) ==> q in qs
  {
  }

  /** The search selects exactly the questions whose text contains the term,
      ignoring case, and keeps them in id order. */
  lemma SearchMatchesExactly(qs: seq<Question>, term: string)
    ensures forall q :: q in SearchMatches(qs, term) <==> q in qs && ContainsIgnoringCase(q.question, term)
    ensures QuestionsSorted(qs) ==> QuestionsSorted(SearchMatches(qs, term))
  {
    forall q | q in qs ensures ILike(q.question, term) <==> ContainsIgnoringCase(q.question, term) {
      ILikeIsContainment(q.question, term);
    }
  }

  /** Deleting the same id twice: the second request finds nothing and is
      422, and leaves the store as the first left it. */
  lemma DeleteTwiceIsUnprocessable(bank: Bank, id: nat, page: int)
    requires Valid(bank)
    ensures var first := DeleteQuestion(bank, id, page);
      var second := DeleteQuestion(first.after, id, page);
      second.reply.Unprocessable? && second.after == first.after
  {
  }

  /** Creating a question and then deleting it by the id it received gives
      back the original store. */
  lemma CreateThenDeleteRestores(bank: Bank, body: PostBody, page: int, newId: nat)
    requires Valid(bank)
    requires forall q :: q in bank.questions ==> q.id < newId
    requires body.searchTerm == []
    ensures DeleteQuestion(InsertQuestion(bank, body, page, newId).after, newId, page).after == bank
  {
    var created := Question(newId, body.question, body.answer, body.category, body.difficulty);
    var after := InsertQuestion(bank, body, page, newId).after;
    assert after == CreateQuestion(bank, body, page, newId).after;
    assert after.questions == bank.questions + [created];
    assert newId !in QuestionIds(bank.questions);
    RemoveKeepsAllWhenAbsent(bank.questions, newId);
    FilterAppend(bank.questions, [created], (q: Question) => q.id != newId);
  }

  /** A created question is listed: it is the last item on the last page of
      the store `GET /questions` pages through. */
  lemma CreatedIsOnLastPage(bank: Bank, body: PostBody, page: int, newId: nat)
    requires Valid(bank)
    requires forall q :: q in bank.questions ==> q.id < newId
    requires body.searchTerm == []
    ensures var after := InsertQuestion(bank, body, page, newId).after.questions;
      var last := Paginate(after, PageCount(after));
      last != [] &&
      last[|last| - 1] == Question(newId, body.question, body.answer, body.category, body.difficulty)
  {
  }
}
