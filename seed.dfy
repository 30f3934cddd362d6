/** seedData.js: the script that loads the wizard's steps, their categories
    and their questions into the store. The nested step data is a parameter;
    each level's rows are created in order, each child row pointing at the
    row just created for its parent. */
module Seed {
  import opened Common
  import opened Store

  datatype QuestionData = QuestionData(text: string, questionType: Option<string>, isRequired: bool, helpText: Option<string>)

  datatype CategoryData = CategoryData(title: string, description: Option<string>, questions: seq<QuestionData>)

  datatype StepData = StepData(title: string, stepNumber: int, serviceType: string, categories: seq<CategoryData>)

  /** The row created for a step: its description is left empty. */
  function StepRow(s: StepData): WizardStep {
    WizardStep(s.stepNumber, s.title, "", s.serviceType)
  }

  /** The row created for the category at position `index` of its step. */
  function CategoryRow(c: CategoryData, index: nat, stepId: Id): Category {
    Category(c.title, OrElse(c.description, ""), index + 1, stepId)
  }

  /** The row created for the question at position `index` of its category. */
  function QuestionRow(q: QuestionData, index: nat, categoryId: Id): Question {
    Question(q.text, OrElse(q.questionType, "text"), q.isRequired, OrElse(q.helpText, ""), index + 1, categoryId)
  }

  /** The category rows of one step, in order. */
  function CategoryRows(cs: seq<CategoryData>, stepId: Id): (r: seq<Category>)
    ensures |r| == |cs|
  {
    if cs == [] then []
    else CategoryRows(cs[..|cs| - 1], stepId) + [CategoryRow(cs[|cs| - 1], |cs| - 1, stepId)]
  }

  /** Each category row of a step is numbered by its 1-based position, has ""
      for a missing description and points at the step. */
  lemma {:induction false} CategoryRowsAt(cs: seq<CategoryData>, stepId: Id)
    ensures forall i :: 0 <= i < |cs| ==>
      var r := CategoryRows(cs, stepId)[i];
      && r.title == cs[i].title
      && r.description == OrElse(cs[i].description, "")
      && r.sortOrder == i + 1
      && r.stepId == stepId
  {
    if cs != [] {
      CategoryRowsAt(cs[..|cs| - 1], stepId);
    }
  }

  /** The question rows of one category, in order. */
  function QuestionRows(qs: seq<QuestionData>, categoryId: Id): (r: seq<Question>)
    ensures |r| == |qs|
  {
    if qs == [] then []
    else QuestionRows(qs[..|qs| - 1], categoryId) + [QuestionRow(qs[|qs| - 1], |qs| - 1, categoryId)]
  }

  /** Each question row of a category is numbered by its 1-based position,
      has type "text" and help text "" when those are missing, keeps its
      required flag and points at the category. */
  lemma {:induction false} QuestionRowsAt(qs: seq<QuestionData>, categoryId: Id)
    ensures forall i :: 0 <= i < |qs| ==>
      var r := QuestionRows(qs, categoryId)[i];
      && r.questionText == qs[i].text
      && r.questionType == OrElse(qs[i].questionType, "text")
      && r.isRequired == qs[i].isRequired
      && r.helpText == OrElse(qs[i].helpText, "")
      && r.sortOrder == i + 1
      && r.categoryId == categoryId
  {
    if qs != [] {
      QuestionRowsAt(qs[..|qs| - 1], categoryId);
    }
  }

  /** The question rows of one step, category after category; the categories
      get consecutive ids from `categoryBase`. */
  function StepQuestions(cs: seq<CategoryData>, categoryBase: Id): seq<Question> {
    if cs == [] then []
    else StepQuestions(cs[..|cs| - 1], categoryBase) + QuestionRows(cs[|cs| - 1].questions, categoryBase + |cs| - 1)
  }

  /** The three tables the seeder writes. */
  datatype Tables = Tables(steps: seq<WizardStep>, categories: seq<Category>, questions: seq<Question>)

  /** The tables after creating one step, then its categories, each followed
      by its questions: the new step's id is the size of the step table, and
      the new categories get consecutive ids from the size of the category table. */
  function AddStep(t: Tables, s: StepData): Tables {
    Tables(t.steps + [StepRow(s)],
           t.categories + CategoryRows(s.categories, |t.steps|),
           t.questions + StepQuestions(s.categories, |t.categories|))
  }

  /** The tables after seeding the steps in order. */
  function SeedInto(t: Tables, steps: seq<StepData>): Tables {
    if steps == [] then t else AddStep(SeedInto(t, steps[..|steps| - 1]), steps[|steps| - 1])
  }

  /** Number of question entries over a list of categories. */
  function QuestionCount(cs: seq<CategoryData>): nat {
    if cs == [] then 0 else QuestionCount(cs[..|cs| - 1]) + |cs[|cs| - 1].questions|
  }

  /** Number of category entries over a list of steps. */
  function CategoryTotal(steps: seq<StepData>): nat {
    if steps == [] then 0 else CategoryTotal(steps[..|steps| - 1]) + |steps[|steps| - 1].categories|
  }

  /** Number of question entries over a list of steps. */
  function QuestionTotal(steps: seq<StepData>): nat {
    if steps == [] then 0 else QuestionTotal(steps[..|steps| - 1]) + QuestionCount(steps[|steps| - 1].categories)
  }

  lemma {:induction false} StepQuestionsCount(cs: seq<CategoryData>, categoryBase: Id)
    ensures |StepQuestions(cs, categoryBase)| == QuestionCount(cs)
  {
    if cs != [] {
      StepQuestionsCount(cs[..|cs| - 1], categoryBase);
    }
  }

  /** Seeding creates one step row per step, one category row per category
      entry and one question row per question entry. */
  lemma {:induction false} SeedCounts(t: Tables, steps: seq<StepData>)
    ensures |SeedInto(t, steps).steps| == |t.steps| + |steps|
    ensures |SeedInto(t, steps).categories| == |t.categories| + CategoryTotal(steps)
    ensures |SeedInto(t, steps).questions| == |t.questions| + QuestionTotal(steps)
  {
    if steps != [] {
      var init := steps[..|steps| - 1];
      SeedCounts(t, init);
      StepQuestionsCount(steps[|steps| - 1].categories, |SeedInto(t, init).categories|);
    }
  }

  /** Seeding only appends: the tables after seeding a prefix of the steps
      are prefixes of the tables after seeding them all. */
  lemma {:induction false} SeedOnlyAppends(t: Tables, steps: seq<StepData>, m: nat)
    requires m <= |steps|
    ensures SeedInto(t, steps[..m]).steps <= SeedInto(t, steps).steps
    ensures SeedInto(t, steps[..m]).categories <= SeedInto(t, steps).categories
    ensures SeedInto(t, steps[..m]).questions <= SeedInto(t, steps).questions
  {
    if m < |steps| {
      var init := steps[..|steps| - 1];
      assert steps[..m] == init[..m];
      SeedOnlyAppends(t, init, m);
    } else {
      assert steps[..m] == steps;
    }
  }

  /** Seeding the steps up to and including step k is seeding those before it
      and then step k. */
  lemma SeedUpTo(t: Tables, steps: seq<StepData>, k: nat)
    requires k < |steps|
    ensures SeedInto(t, steps[..k + 1]) == AddStep(SeedInto(t, steps[..k]), steps[k])
  {
    assert steps[..k + 1][..k] == steps[..k];
  }

  lemma BlockOfPrefix<T>(before: seq<T>, block: seq<T>, all: seq<T>)
    requires before + block <= all
    ensures |before| + |block| <= |all| && all[|before|..|before| + |block|] == block
  {
    assert all[|before|..|before| + |block|] == (before + block)[|before|..];
  }

  /** The step row created for step j is the row of step j. */
  lemma SeededStepAt(t: Tables, steps: seq<StepData>, j: nat)
    requires j < |steps|
    ensures |t.steps| + j < |SeedInto(t, steps).steps|
    ensures SeedInto(t, steps).steps[|t.steps| + j] == StepRow(steps[j])
  {
    SeedUpTo(t, steps, j);
    SeedCounts(t, steps[..j]);
    SeedOnlyAppends(t, steps, j + 1);
  }

  /** The categories of the last step are the last block of rows. */
  lemma LastCategoryBlock(t: Tables, steps: seq<StepData>)
    requires steps != []
    ensures var j := |steps| - 1;
      && |t.categories| + CategoryTotal(steps[..j]) + |steps[j].categories| <= |SeedInto(t, steps).categories|
      && SeedInto(t, steps).categories[|t.categories| + CategoryTotal(steps[..j])..
                                       |t.categories| + CategoryTotal(steps[..j]) + |steps[j].categories|]
         == CategoryRows(steps[j].categories, |t.steps| + j)
  {
    var j := |steps| - 1;
    var before := SeedInto(t, steps[..j]);
    var block := CategoryRows(steps[j].categories, |t.steps| + j);
    SeedCounts(t, steps[..j]);
    assert SeedInto(t, steps).categories == before.categories + block;
    BlockOfPrefix(before.categories, block, SeedInto(t, steps).categories);
  }

  /** The categories of step j form one block of rows, right after those of
      the earlier steps, and all point at the row created for step j. */
  lemma {:induction false} SeededCategoryBlock(t: Tables, steps: seq<StepData>, j: nat)
    requires j < |steps|
    ensures |t.categories| + CategoryTotal(steps[..j]) + |steps[j].categories| <= |SeedInto(t, steps).categories|
    ensures SeedInto(t, steps).categories[|t.categories| + CategoryTotal(steps[..j])..
                                          |t.categories| + CategoryTotal(steps[..j]) + |steps[j].categories|]
      == CategoryRows(steps[j].categories, |t.steps| + j)
  {
    if j == |steps| - 1 {
      LastCategoryBlock(t, steps);
    } else {
      var init := steps[..|steps| - 1];
      var before := SeedInto(t, init).categories;
      var lo := |t.categories| + CategoryTotal(steps[..j]);
      var hi := lo + |steps[j].categories|;
      assert hi <= |before| && before[lo..hi] == CategoryRows(steps[j].categories, |t.steps| + j) by {
        SeededCategoryBlock(t, init, j);
        assert init[..j] == steps[..j] && init[j] == steps[j];
      }
      assert before <= SeedInto(t, steps).categories;
      SliceOfPrefix(before, SeedInto(t, steps).categories, lo, hi);
    }
  }

  lemma SliceOfPrefix<T>(a: seq<T>, b: seq<T>, lo: nat, hi: nat)
    requires a <= b && lo <= hi <= |a|
    ensures b[lo..hi] == a[lo..hi]
  {
  }

  lemma {:induction false} StepQuestionsLinked(cs: seq<CategoryData>, categoryBase: Id)
    ensures QuestionsLinked(StepQuestions(cs, categoryBase), categoryBase + |cs|)
  {
    if cs != [] {
      StepQuestionsLinked(cs[..|cs| - 1], categoryBase);
      QuestionRowsAt(cs[|cs| - 1].questions, categoryBase + |cs| - 1);
    }
  }

  /** Seeding keeps the parent links sound: when every category points at a
      step and every question at a category, this still holds afterwards. */
  lemma {:induction false} SeedKeepsLinks(t: Tables, steps: seq<StepData>)
    requires CategoriesLinked(t.categories, |t.steps|) && QuestionsLinked(t.questions, |t.categories|)
    ensures var r := SeedInto(t, steps);
      CategoriesLinked(r.categories, |r.steps|) && QuestionsLinked(r.questions, |r.categories|)
  {
    if steps != [] {
      var before := SeedInto(t, steps[..|steps| - 1]);
      var s := steps[|steps| - 1];
      SeedKeepsLinks(t, steps[..|steps| - 1]);
      CategoryRowsAt(s.categories, |before.steps|);
      StepQuestionsLinked(s.categories, |before.categories|);
    }
  }

  /** Creates one category and then its questions. */
  method SeedCategory(db: Db, c: CategoryData, index: nat, stepId: Id)
    modifies db`categories, db`questions
    ensures db.categories == old(db.categories) + [CategoryRow(c, index, stepId)]
    ensures db.questions == old(db.questions) + QuestionRows(c.questions, |old(db.categories)|)
  {
    db.categories := db.categories + [CategoryRow(c, index, stepId)];
    var categoryId := |db.categories| - 1;
    var k := 0;
    while k < |c.questions|
      invariant 0 <= k <= |c.questions|
      invariant db.categories == old(db.categories) + [CategoryRow(c, index, stepId)]
      invariant db.questions == old(db.questions) + QuestionRows(c.questions[..k], categoryId)
    {
      assert c.questions[..k + 1][..k] == c.questions[..k];
      db.questions := db.questions + [QuestionRow(c.questions[k], k, categoryId)];
      k := k + 1;
    }
    assert c.questions[..k] == c.questions;
  }

  /** Creates one step and then its categories. */
  method SeedStep(db: Db, s: StepData)
    modifies db`steps, db`categories, db`questions
    ensures Tables(db.steps, db.categories, db.questions) ==
      AddStep(Tables(old(db.steps), old(db.categories), old(db.questions)), s)
  {
    ghost var c0, q0 := db.categories, db.questions;
    db.steps := db.steps + [StepRow(s)];
    var stepId := |db.steps| - 1;
    var cats := s.categories;
    var j := 0;
    while j < |cats|
      invariant 0 <= j <= |cats|
      invariant db.steps == old(db.steps) + [StepRow(s)]
      invariant db.categories == c0 + CategoryRows(cats[..j], stepId)
      invariant db.questions == q0 + StepQuestions(cats[..j], |c0|)
    {
      SeedCategory(db, cats[j], j, stepId);
      assert cats[..j + 1][..j] == cats[..j] && cats[..j + 1][j] == cats[j];
      ConcatAssociative(c0, CategoryRows(cats[..j], stepId), [CategoryRow(cats[j], j, stepId)]);
      ConcatAssociative(q0, StepQuestions(cats[..j], |c0|), QuestionRows(cats[j].questions, |c0| + j));
      j := j + 1;
    }
    assert cats[..j] == cats;
  }

  /** The seeding loop of the script, over the steps in order. */
  method SeedSteps(db: Db, stepsData: seq<StepData>)
    modifies db`steps, db`categories, db`questions
    ensures Tables(db.steps, db.categories, db.questions) ==
      SeedInto(Tables(old(db.steps), old(db.categories), old(db.questions)), stepsData)
  {
    ghost var t0 := Tables(db.steps, db.categories, db.questions);
    var i := 0;
    while i < |stepsData|
      invariant 0 <= i <= |stepsData|
      invariant Tables(db.steps, db.categories, db.questions) == SeedInto(t0, stepsData[..i])
    {
      SeedStep(db, stepsData[i]);
      SeedUpTo(t0, stepsData, i);
      i := i + 1;
    }
    assert stepsData[..i] == stepsData;
  }

  /** Seeding a valid store keeps it valid. */
  method SeedAll(db: Db, stepsData: seq<StepData>)
    requires db.Valid()
    modifies db`steps, db`categories, db`questions
    ensures db.Valid()
    ensures Tables(db.steps, db.categories, db.questions) ==
      SeedInto(Tables(old(db.steps), old(db.categories), old(db.questions)), stepsData)
  {
    SeedKeepsLinks(Tables(db.steps, db.categories, db.questions), stepsData);
    SeedSteps(db, stepsData);
    SeedCounts(Tables(old(db.steps), old(db.categories), old(db.questions)), stepsData);
  }
}
