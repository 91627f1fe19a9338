# Trivia question bank: retrieval and selection core

This project models the core of the Trivia-App backend (a Flask service) in Dafny: the
part that picks questions out of the question bank. The two database tables are held
in memory as a `Bank`. `questions` is a `seq<Question>` in ascending id order, and
`categories` is a `seq<Category>` in ascending id order. Each route handler is a pure
function or method over the bank, and it answers with a `Reply`: `Ok(body)`,
`NotFound` (the 404 envelope, "resource not found") or `Unprocessable` (the 422
envelope, "Unprocessable Entity"). A handler that writes also returns the bank as it
leaves it.

Modules:

- `Replies`: `Option` and `Reply`.
- `Bank`: the records, the store invariant `Valid` (ids strictly increase in both
  tables), and `Filter`, the order-preserving filter every query is built from.
- `Pager`: `paginate_resource`, including Python's slice rules for page numbers
  that are zero or negative.
- `Text`: `ILIKE '%term%'` as ASCII case-insensitive substring containment. It has a
  declarative definition and a left-to-right scan, and a lemma proves the two agree.
- `Categories`: the `build_categories` loop and `Category.query.get`.
- `Routes`: `GET /categories`, `GET /questions`, `DELETE /questions/<id>`,
  `POST /questions` (search and create), and `GET /categories/<id>/questions`.
- `Quiz`: `POST /quizzes`. The random index is the parameter `draw`.

Behaviour of the code that the model keeps, although it may look unintended:

- The search answer's `totalQuestions` is the size of the whole store, not the number
  of matches.
- The search runs whenever `searchTerm` is truthy. A term of spaces alone is still
  searched for; it is not trimmed first.
- The search answer always reports `currentCategory` as `"History"`.
- `GET /questions` takes `current_category` from the query string with default 1. It
  does not filter by it.
- Only the listing `GET /questions` answers 404 for an empty page. Delete, create,
  search and the category listing answer with an empty page instead.

## Model

| member | source | states |
|---|---|---|
| Bank.Filter | backend/flaskr/__init__.py:118-120 | A filtered query keeps exactly the rows that satisfy the filter, never more rows than the scan had, and keeps id order |
| Bank.FindQuestion | backend/flaskr/__init__.py:92 | `one_or_none` by id finds a row with that id, and finds none exactly when no row has it |
| Pager.Paginate | backend/flaskr/__init__.py:14-22 | A page holds at most 10 items. For page >= 1 it is exactly `items[(page-1)*10 .. min(page*10, |items|)]` in input order, and it is empty exactly when `(page-1)*10 >= |items|` |
| Pager.NonEmptyPages | backend/test_flaskr.py:69-75 | A positive page is non-empty exactly when it is among the first ceil(n/10) pages, so a page past the end (page 500) is empty |
| Pager.FirstPagesArePrefix | backend/flaskr/__init__.py:16-20 | Pages 1..n laid end to end are exactly the first min(10n, |items|) items: pages neither skip nor repeat items |
| Pager.AllPagesCoverItems | backend/flaskr/__init__.py:16-20 | The non-empty pages together are the whole selection |
| Pager.ZeroPageIsEmpty | backend/flaskr/__init__.py:15-20 | Page 0 is the slice `[-10:0]`, which is always empty |
| Pager.NegativePageCountsFromEnd | backend/flaskr/__init__.py:15-20 | A negative page is a window counted back from the end of the selection, and need not be empty |
| Pager.NegativePageExample | backend/flaskr/__init__.py:15-20 | Page -1 of 25 items is items 5 to 14 |
| Text.ILikeIsContainment | backend/flaskr/__init__.py:119 | The left-to-right scan reports a match exactly when the term occurs somewhere in the text, ignoring ASCII case |
| Text.CrestExample | backend/flaskr/__init__.py:119 | The term "crest" matches "Crest Toothpaste" |
| Categories.BuildCategories | backend/flaskr/__init__.py:46-55 | The map's keys are exactly the category ids, and each id maps to that category's name |
| Categories.FindCategory | backend/flaskr/__init__.py:159 | A lookup by primary key finds a category with that id, and finds none exactly when no category has it |
| Routes.GetCategories | backend/flaskr/__init__.py:58-68 | Always succeeds, with every category id mapped to its name and no other keys |
| Routes.GetQuestions | backend/flaskr/__init__.py:72-87 | NotFound exactly when the requested page is empty; for page >= 1, exactly when `(page-1)*10 >= |store|`. On success: that page of the id-ordered store, `total_questions` = size of the whole store, the echoed category and the full category map. Never 422 |
| Routes.RemoveDropsOne | backend/flaskr/__init__.py:97 | Deleting a present id from an id-ordered store removes exactly one row |
| Routes.RemoveKeepsAllWhenAbsent | backend/flaskr/__init__.py:94-95 | Deleting an absent id removes nothing |
| Routes.DeleteQuestion | backend/flaskr/__init__.py:91-105 | Unprocessable exactly when the id is absent, and then the store is unchanged. Otherwise: exactly that question is removed, every other question stays, the store stays id-ordered, and the requested page of the remaining store is listed. Never 404 |
| Routes.DeleteTwiceIsUnprocessable | backend/flaskr/__init__.py:94-95 | Deleting the same id a second time takes the 422 branch and changes nothing |
| Routes.PageOfSorted | backend/flaskr/__init__.py:122 | A page of an id-ordered selection is itself id-ordered, and holds only items of the selection |
| Routes.SearchMatchesExactly | backend/flaskr/__init__.py:118-120 | The search selects exactly the questions whose text contains the term ignoring case, in id order |
| Routes.SearchQuestions | backend/flaskr/__init__.py:117-129 | The answer is the requested page of the matches, in id order. Every returned question is in the store and contains the term. `totalQuestions` is the whole store's size, and `currentCategory` is "History" |
| Routes.CreateQuestion | backend/flaskr/__init__.py:130-146 | The new record is appended under the fresh id, the store stays id-ordered, `total_questions` is the old size plus one, and the requested page of the new store is listed |
| Routes.InsertQuestion | backend/flaskr/__init__.py:109-146 | Always succeeds and never touches the categories table. A non-empty `searchTerm` takes precedence over the question fields: the store is unchanged, the answer is the requested page of the id-ordered matches, `totalQuestions` is the whole store's size, and `currentCategory` is "History". Otherwise the new record is appended under the fresh id, `total_questions` is the old size plus one, and the requested page of the new store is listed |
| Routes.CreateThenDeleteRestores | backend/flaskr/__init__.py:130-146 | Deleting a just-created question by its new id gives back the original store |
| Routes.CreatedIsOnLastPage | backend/flaskr/__init__.py:138-145 | After a create, the new question is the last item on the last page of the listing |
| Routes.GetCategorizedQuestions | backend/flaskr/__init__.py:150-163 | NotFound exactly when the category id does not exist. On success: the questions are the requested page of some ordering of exactly the category's rows, so the page has the same length as under id order and holds only questions of that category. `totalQuestions` is the number of distinct questions of that category, and `currentCategory` is that category's name. Never 422 |
| Quiz.Candidates | backend/flaskr/__init__.py:172-182 | A question is a candidate exactly when the body is well formed, the question is in the store and in the resolved pool (every category for id 0), and its text is not among the previous questions |
| Quiz.GetQuizQuestion | backend/flaskr/__init__.py:167-191 | A returned question is in the store, in the resolved pool and unseen by text. The answer is Unprocessable exactly when the body is malformed or every pool question's text is already in `previous_questions`, an empty pool included. Never 404 |
| Quiz.EveryCandidateCanBeDrawn | backend/flaskr/__init__.py:184-185 | Every unseen pool question is returned for some valid random index |
| Quiz.DrawIsInjective | backend/flaskr/__init__.py:184-185 | Distinct indices draw distinct questions, so a uniform index is a uniform choice among the unseen questions |
| Quiz.FreshQuizSucceeds | backend/flaskr/__init__.py:172-185 | With category 0 and no previous questions, every question of a non-empty bank is a candidate, and the draw succeeds |
| Quiz.AskingShrinksCandidates | backend/flaskr/__init__.py:178-182 | Adding the drawn question's text to `previous_questions` leaves strictly fewer candidates, so a quiz run ends |

## Left out

- Flask application setup, routing, CORS and the `after_request` headers, JSON
  encoding, and the error-handler plumbing. The 404 and 422 envelopes are only the
  constructors of `Reply`.
- Database failures. The `try`/`except` blocks in `build_categories` and
  `GET /categories` turn a failed read into 404. The model has no failing store, so
  `GetCategories` and `GetQuestions` always read the categories successfully.
- SQLAlchemy and the `models` module, which is not part of this model. `format()` is
  the identity on a record. `insert()` and `delete()` become the bank a handler
  returns.
- Query-string parsing. `page` and `current_category` default to 1 when they are
  missing or not integers. The handlers receive the parsed integers.
- CreateQuestion: the id the database assigns is the parameter `newId`, required to be
  greater than every existing id. The model does not reproduce the database's
  sequence.
- A `POST /questions` body with missing fields. Those fields become `None`, and the
  database insert may then fail with a server error. The model takes the fields as
  present.
- Text.ILikeIsContainment: folds ASCII letters only. Unicode case folding depends on
  the database collation. `%` and `_` in a search term are matched literally, not
  as `LIKE` wildcards. A backslash in the term is matched literally too, although
  the pattern is sent without an `ESCAPE` clause and the database treats it as the
  escape character: the term `a\b` finds the text "ab" in the database, but "a\b" in this model.
- The random number generator. `random.randrange` becomes the index `draw`, required
  to be below the number of candidates whenever there is a candidate. Uniformity is
  stated through `Quiz.EveryCandidateCanBeDrawn` and `Quiz.DrawIsInjective`, not as a
  probability.
- Quiz bodies of other JSON shapes. The model covers a `previous_questions` that is
  a list of strings, or missing or `null` (which gives 422). A string or an object
  there is left out: Python's `in` then tests for a substring or for a key, and the
  handler can still answer with a question. A missing `quiz_category` or `id` is
  modelled as `None` (422). A body that is not a JSON object at all is left out too:
  it fails before the `try` block, so the answer is a server error, not 422.
- Negative path ids. The routes `/questions/<int:question_id>` and
  `/categories/<int:category_id>/questions` match only unsigned integers, so a
  negative id never reaches a handler and the router answers 404. The model's
  `DeleteQuestion` and `GetCategorizedQuestions` therefore take a `nat` id.
- Routes.GetCategorizedQuestions: does not promise which ordering of the category's
  rows is paged. The category query has no ordering clause, so the model's id order
  is one admissible order among many, and the contract states only that the page is
  the requested page of some permutation of those rows.
- The unused imports at the top of `backend/flaskr/__init__.py`, and the
  database-backed test suite.
