/** The inline keyboards the bot attaches to its messages
    (internal/interface/telegram/keyboard.go): the fixed keyboards of each stage
    and the paginated exercise picker. A keyboard is its rows of buttons; a
    button is the text shown and the callback data sent back when pressed. */
module Keyboard {
  import opened Tables
  import opened Decimal
  import opened Store

  datatype Button = Button(text: string, data: string)

  type Markup = seq<seq<Button>>

  const StartTrainingBtn := Button("Начать тренировку", "start_training")
  const EndTrainingBtn := Button("Закончить тренировку", "end_training")
  const StartSetBtn := Button("Начать сэт", "start_set")
  const EndSetBtn := Button("Закончить сэт", "end_set")
  const AddBtn := Button("Добавить упражнение", "add_exercise")
  const ChooseExerciseBtn := Button("Выбрать упражнение", "choose_exercise")

  function StartKeyboard(): Markup {
    [[StartTrainingBtn], [AddBtn]]
  }

  function TrainingKeyboard(): Markup {
    [[StartSetBtn, EndTrainingBtn], [AddBtn, ChooseExerciseBtn]]
  }

  function TrainingKeyboardWithExerciseChosen(): Markup {
    [[StartSetBtn, EndTrainingBtn], [AddBtn]]
  }

  function SetKeyboard(): Markup {
    [[EndSetBtn]]
  }

  function ChooseKeyboard(): Markup {
    [[ChooseExerciseBtn]]
  }

  /** Every button of a keyboard. */
  function Buttons(kb: Markup): (bs: set<Button>)
    ensures forall b :: b in bs <==> exists r :: 0 <= r < |kb| && b in kb[r]
  {
    if kb == [] then {}
    else
      var last := kb[|kb| - 1];
      Buttons(kb[..|kb| - 1]) + set k | 0 <= k < |last| :: last[k]
  }

  /** The buttons each fixed keyboard offers; the keyboard shown once an
      exercise is chosen is the training keyboard without the button that
      chooses one. */
  lemma FixedKeyboardButtons()
    ensures Buttons(StartKeyboard()) == {StartTrainingBtn, AddBtn}
    ensures Buttons(TrainingKeyboard()) == {StartSetBtn, EndTrainingBtn, AddBtn, ChooseExerciseBtn}
    ensures Buttons(TrainingKeyboardWithExerciseChosen()) == Buttons(TrainingKeyboard()) - {ChooseExerciseBtn}
    ensures Buttons(SetKeyboard()) == {EndSetBtn}
    ensures Buttons(ChooseKeyboard()) == {ChooseExerciseBtn}
  {
    var kb := TrainingKeyboard();
    assert kb[..1] == [kb[0]] && [kb[0]][..0] == [];
    var kc := TrainingKeyboardWithExerciseChosen();
    assert kc[..1] == [kc[0]] && [kc[0]][..0] == [];
    assert ChooseExerciseBtn != StartSetBtn && ChooseExerciseBtn != EndTrainingBtn && ChooseExerciseBtn != AddBtn by {
      assert ChooseExerciseBtn.data[0] == 'c' && StartSetBtn.data[0] == 's';
      assert EndTrainingBtn.data[0] == 'e' && AddBtn.data[0] == 'a';
    }
    var ks := StartKeyboard();
    assert ks[..1] == [ks[0]] && [ks[0]][..0] == [];
    assert SetKeyboard()[..0] == [] && ChooseKeyboard()[..0] == [];
  }

  /** The picker's "Next" button on page current. */
  function NextButton(current: int): Button {
    Button("Next", "next_" + ShowInt(current + 1))
  }

  /** The picker's "Previous" button on page current. */
  function PrevButton(current: int): Button {
    Button("Previous", "prev_" + ShowInt(current - 1))
  }

  /** The button that picks one exercise. */
  function ExerciseButton(name: string): Button {
    Button(name, "exercise_" + name)
  }

  /** The navigation row PagKeyboard appends below the exercises, or None when
      it appends none. Inside 1..maxPage a page links back exactly when it is
      not the first and forward exactly when it is not the last; the single
      page has no navigation row. */
  function NavRow(current: int, maxPage: int): (row: Option<seq<Button>>)
    ensures row.None? <==> current == 1 && maxPage == 1
    ensures row.Some? ==> row.value != [] && forall b :: b in row.value ==> b == NextButton(current) || b == PrevButton(current)
    ensures row.Some? ==> row.value == (if current != 1 then [PrevButton(current)] else [])
                                      + (if current != maxPage then [NextButton(current)] else [])
    ensures 1 <= current <= maxPage && row.Some? ==> (NextButton(current) in row.value <==> current < maxPage)
    ensures 1 <= current <= maxPage && row.Some? ==> (PrevButton(current) in row.value <==> current > 1)
  {
    assert NextButton(current) != PrevButton(current) by {
      assert NextButton(current).text[0] != PrevButton(current).text[0];
    }
    if current == 1 && current != maxPage then Some([NextButton(current)])
    else if current == maxPage && current != 1 then Some([PrevButton(current)])
    else if current == maxPage && current == 1 then None
    else Some([PrevButton(current), NextButton(current)])
  }

  /** Outside 1..maxPage the picker offers both directions (page 1 excepted,
      which offers "Next" whatever maxPage is): a user without exercises
      (maxPage 0) can page forward indefinitely through empty pages. */
  lemma NavigationPastTheEnd(current: int, maxPage: int)
    requires current > maxPage && current != 1
    ensures NavRow(current, maxPage) == Some([PrevButton(current), NextButton(current)])
  {
  }

  /** A user without exercises (maxPage 0) is still offered "Next" on page 1. */
  lemma EmptyCatalogueFirstPage()
    ensures NavRow(1, 0) == Some([NextButton(1)])
  {
  }

  /** rows is the picker for page: one row per exercise, in the order given,
      then the navigation row when there is one. */
  predicate IsPageKeyboard(rows: Markup, page: seq<string>, nav: Option<seq<Button>>) {
    && |rows| == |page| + (if nav.Some? then 1 else 0)
    && (forall k :: 0 <= k < |page| ==> rows[k] == [ExerciseButton(page[k])])
    && (nav.Some? ==> rows[|page|] == nav.value)
  }

  /** BotHandler.PagKeyboard: the exercise picker for page current of user u. */
  method PagKeyboard(repo: Repository, u: UserId, current: int) returns (rows: Markup)
    ensures IsPageKeyboard(rows, repo.GetPage(u, current), NavRow(current, repo.MaxPages(u)))
  {
    var page := repo.GetPage(u, current);
    var exerciseBtns: seq<Button> := [];
    for i := 0 to |page|
      invariant |exerciseBtns| == i
      invariant forall k :: 0 <= k < i ==> exerciseBtns[k] == ExerciseButton(page[k])
    {
      exerciseBtns := exerciseBtns + [ExerciseButton(page[i])];
    }
    rows := [];
    for i := 0 to |exerciseBtns|
      invariant |rows| == i
      invariant forall k :: 0 <= k < i ==> rows[k] == [exerciseBtns[k]]
    {
      rows := rows + [[exerciseBtns[i]]];
    }
    var maxPage := repo.MaxPages(u);
    if current == 1 && current != maxPage {
      rows := rows + [[NextButton(current)]];
    } else if current == maxPage && current != 1 {
      rows := rows + [[PrevButton(current)]];
    } else if current == maxPage && current == 1 {
      return;
    } else {
      rows := rows + [[PrevButton(current), NextButton(current)]];
    }
  }

  /** Every exercise button in a picker names one of the user's exercises on that page. */
  lemma PickerOffersOwnExercises(repo: Repository, u: UserId, current: int, rows: Markup)
    requires IsPageKeyboard(rows, repo.GetPage(u, current), NavRow(current, repo.MaxPages(u)))
    ensures forall r, b :: 0 <= r < |rows| && b in rows[r] && b != NextButton(current) && b != PrevButton(current) ==>
      b == ExerciseButton(b.text)
      && exists i :: 0 <= i < |repo.exercises| && InPage(repo.exercises[i], u, current) && repo.exercises[i].name == b.text
  {
    var page := repo.GetPage(u, current);
    forall r, b | 0 <= r < |rows| && b in rows[r] && b != NextButton(current) && b != PrevButton(current)
      ensures b == ExerciseButton(b.text)
      ensures exists i :: 0 <= i < |repo.exercises| && InPage(repo.exercises[i], u, current) && repo.exercises[i].name == b.text
    {
      assert r < |page|;
      assert b == ExerciseButton(page[r]);
      assert page[r] in page;
    }
  }
}
