/** The in-memory picture of the trivia database: the two tables the core
    reads and writes, the invariant the database keeps for them, and the
    order-preserving filter every query is built from. */
module Bank {
  import opened Replies

  /** A row of the `questions` table; `format()` is taken to be the identity. */
  datatype Question = Question(id: int, question: string, answer: string, category: int, difficulty: int)

  /** A row of the `categories` table; `name` is the column the source calls `type`. */
  datatype Category = Category(id: int, name: string)

  /** Both tables, each as its `order_by(id)` scan. */
  datatype Bank = Bank(questions: seq<Question>, categories: seq<Category>)

  /** Ids strictly increase along the scan: ids are primary keys and the scan is ordered by id. */
  predicate QuestionsSorted(qs: seq<Question>) {
    forall i, j :: 0 <= i < j < |qs| ==> qs[i].id < qs[j].id
  }

  predicate CategoriesSorted(cs: seq<Category>) {
    forall i, j :: 0 <= i < j < |cs| ==> cs[i].id < cs[j].id
  }

  /** The invariant the database keeps between requests. */
  predicate Valid(b: Bank) {
    QuestionsSorted(b.questions) && CategoriesSorted(b.categories)
  }

  function QuestionIds(qs: seq<Question>): set<int> {
    set q | q in qs :: q.id
  }

  function CategoryIds(cs: seq<Category>): set<int> {
    set c | c in cs :: c.id
  }

  /** The questions of `qs` that satisfy `p`, in scan order: the model of a
      `filter(...)` clause applied to an ordered query. */
  function Filter(qs: seq<Question>, p: Question -> bool): (r: seq<Question>)
    ensures forall q :: q in r <==> q in qs && p(q)
    ensures |r| <= |qs|
    ensures QuestionsSorted(qs) ==> QuestionsSorted(r)
  {
    if qs == [] then []
    else
      var rest := Filter(qs[1..], p);
      assert QuestionsSorted(qs) ==> forall q :: q in rest ==> qs[0].id < q.id by {
        if QuestionsSorted(qs) {
          forall q | q in rest ensures qs[0].id < q.id {
            var k :| 0 <= k < |qs[1..]| && qs[1..][k] == q;
            assert qs[1 + k] == q;
          }
        }
      }
      if p(qs[0]) then [qs[0]] + rest else rest
  }

  /** `Question.query.filter(Question.id == id).one_or_none()`. */
  function FindQuestion(qs: seq<Question>, id: int): (r: Option<Question>)
    ensures r.Some? ==> r.value in qs && r.value.id == id
    ensures r.None? <==> id !in QuestionIds(qs)
  {
    if qs == [] then None
    else if qs[0].id == id then Some(qs[0])
    else FindQuestion(qs[1..], id)
  }

  /** The rows of a sorted scan are pairwise distinct, so a scan has as many
      rows as the set of its rows has members. */
  lemma {:induction false} SortedCount(qs: seq<Question>)
    requires QuestionsSorted(qs)
    ensures |set q | q in qs| == |qs|
  {
    if qs != [] {
      SortedCount(qs[1..]);
      assert (set q | q in qs) == {qs[0]} + (set q | q in qs[1..]);
      assert qs[0] !in qs[1..];
    }
  }

  /** Filtering with a stricter predicate keeps no more rows, and keeps
      strictly fewer when some row passes the looser one but not the stricter one. */
  lemma {:induction false} FilterShrinks(qs: seq<Question>, loose: Question -> bool, strict: Question -> bool, dropped: Question)
    requires forall q :: strict(q) ==> loose(q)
    ensures |Filter(qs, strict)| <= |Filter(qs, loose)|
    ensures dropped in qs && loose(dropped) && !strict(dropped) ==> |Filter(qs, strict)| < |Filter(qs, loose)|
  {
    if qs != [] {
      FilterShrinks(qs[1..], loose, strict, dropped);
    }
  }

  /** A filter every row passes keeps the whole scan. */
  lemma {:induction false} FilterKeepsAll(qs: seq<Question>, p: Question -> bool)
    requires forall q :: q in qs ==> p(q)
    ensures Filter(qs, p) == qs
  {
    if qs != [] {
      FilterKeepsAll(qs[1..], p);
      assert qs == [qs[0]] + qs[1..];
    }
  }

  /** Filtering distributes over concatenation. */
  lemma {:induction false} FilterAppend(a: seq<Question>, b: seq<Question>, p: Question -> bool)
    ensures Filter(a + b, p) == Filter(a, p) + Filter(b, p)
  {
    if a != [] {
      var ab := a + b;
      assert ab[0] == a[0] && ab[1..] == a[1..] + b;
      FilterAppend(a[1..], b, p);
      var tail := Filter(a[1..], p) + Filter(b, p);
      assert Filter(ab, p) == (if p(a[0]) then [a[0]] + tail else tail);
      assert Filter(a, p) == (if p(a[0]) then [a[0]] + Filter(a[1..], p) else Filter(a[1..], p));
    } else {
      assert a + b == b;
    }
  }

}
