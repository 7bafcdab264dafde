/** The bot's handlers (internal/interface/telegram/hanlders.go): routing of
    button callbacks by their data, the text handler that the bot re-binds as a
    set is recorded (one binding for the whole bot, not one per user), and the
    effect of each handler on the store and on the reply. */
module Handlers {
  import opened Tables
  import opened Decimal
  import opened Input
  import opened Store
  import opened Keyboard

  // ---------------------------------------------------------------------------
  // Routing of callback data (DataHandler's switch)

  predicate HasPrefix(s: string, p: string) {
    |p| <= |s| && s[..|p|] == p
  }

  /** What a button press asks for. */
  datatype Callback =
    | Paginate(page: int)
    | PickExercise(name: string)
    | StartTrainingPressed
    | AddExercisePressed
    | EndTrainingPressed
    | StartSetPressed
    | EndSetPressed
    | ChooseExercisePressed
    | ShowStatsPressed
    | Ignored

  /** strconv.Atoi of a page number: a digit string, optionally after a sign,
      is read in decimal; every text that is not one or more digits after an optional sign
      is a syntax error, on which Atoi yields 0 and that 0 is used as the page. */
  function PageOf(suffix: string): (page: int)
    ensures |suffix| > 0 && AllDigits(suffix) ==> page == ValueOf(suffix)
    ensures |suffix| > 1 && suffix[0] == '+' && AllDigits(suffix[1..]) ==> page == ValueOf(suffix[1..])
    ensures |suffix| > 1 && suffix[0] == '-' && AllDigits(suffix[1..]) ==> page == -(ValueOf(suffix[1..]) as int)
    ensures !(|suffix| > 0 && (AllDigits(suffix) || ((suffix[0] == '+' || suffix[0] == '-') && |suffix| > 1 && AllDigits(suffix[1..]))))
      ==> page == 0
  {
    match Atoi(suffix)
    case Some(p) => p
    case None => 0
  }

  /** The page number a navigation button carries is the page it opens. */
  lemma PageOfShowInt(n: int)
    ensures PageOf(ShowInt(n)) == n
  {
    AtoiShowInt(n);
  }

  /** The data of the fixed buttons, matched exactly. */
  const ExactData: set<string> :=
    {"start_training", "add_exercise", "end_training", "start_set", "end_set", "choose_exercise", "show_stats"}

  /** The prefixes are tried in the order next_, prev_, exercise_; then the exact values. */
  function Route(data: string): (cb: Callback)
    ensures cb.Paginate? <==> HasPrefix(data, "next_") || HasPrefix(data, "prev_")
    ensures cb.Paginate? ==> cb.page == PageOf(data[5..])
    ensures cb.PickExercise? ==> data == "exercise_" + cb.name
    ensures cb == Ignored <==>
      !HasPrefix(data, "next_") && !HasPrefix(data, "prev_") && !HasPrefix(data, "exercise_") && data !in ExactData
  {
    if HasPrefix(data, "next_") then Paginate(PageOf(data[5..]))
    else if HasPrefix(data, "prev_") then Paginate(PageOf(data[5..]))
    else if HasPrefix(data, "exercise_") then
      assert data == data[..9] + data[9..];
      PickExercise(data[9..])
    else if data == "start_training" then StartTrainingPressed
    else if data == "add_exercise" then AddExercisePressed
    else if data == "end_training" then EndTrainingPressed
    else if data == "start_set" then StartSetPressed
    else if data == "end_set" then EndSetPressed
    else if data == "choose_exercise" then ChooseExercisePressed
    else if data == "show_stats" then ShowStatsPressed
    else Ignored
  }

  /** "Next" on page c opens page c + 1. */
  lemma RouteNext(c: int)
    ensures Route(NextButton(c).data) == Paginate(c + 1)
  {
    var data := NextButton(c).data;
    assert data[..5] == "next_" && data[5..] == ShowInt(c + 1);
    AtoiShowInt(c + 1);
  }

  /** "Previous" on page c opens page c - 1. */
  lemma RoutePrev(c: int)
    ensures Route(PrevButton(c).data) == Paginate(c - 1)
  {
    var data := PrevButton(c).data;
    assert data[..5] == "prev_" && data[5..] == ShowInt(c - 1);
    assert data[0] == 'p';
    AtoiShowInt(c - 1);
  }

  /** An exercise button picks exactly the exercise it shows, whatever its name. */
  lemma RouteExercise(name: string)
    ensures Route(ExerciseButton(name).data) == PickExercise(name)
  {
    var data := ExerciseButton(name).data;
    assert data[..9] == "exercise_" && data[9..] == name;
    assert data[0] == 'e';
  }

  /** Data that starts with none of the three prefixes goes to the exact matches. */
  lemma Unprefixed(data: string)
    requires |data| >= 2 && data[0] != 'n' && data[0] != 'p' && (data[0] != 'e' || data[1] != 'x')
    ensures !HasPrefix(data, "next_") && !HasPrefix(data, "prev_") && !HasPrefix(data, "exercise_")
  {
    if |data| >= 5 { assert data[..5][0] == data[0]; }
    if |data| >= 9 { assert data[..9][0] == data[0] && data[..9][1] == data[1]; }
  }

  /** Each fixed button reaches its own case of the switch. */
  lemma FixedButtonsRouted()
    ensures Route(StartTrainingBtn.data) == StartTrainingPressed
    ensures Route(AddBtn.data) == AddExercisePressed
    ensures Route(EndTrainingBtn.data) == EndTrainingPressed
    ensures Route(StartSetBtn.data) == StartSetPressed
    ensures Route(EndSetBtn.data) == EndSetPressed
    ensures Route(ChooseExerciseBtn.data) == ChooseExercisePressed
  {
    Unprefixed(StartTrainingBtn.data);
    Unprefixed(AddBtn.data);
    Unprefixed(EndTrainingBtn.data);
    Unprefixed(StartSetBtn.data);
    Unprefixed(EndSetBtn.data);
    Unprefixed(ChooseExerciseBtn.data);
  }

  /** No button of a fixed keyboard is ignored by the callback handler
      (TrainingKeyboardWithExerciseChosen's buttons are a subset of TrainingKeyboard's). */
  lemma FixedKeyboardsHandled(b: Button)
    requires b in Buttons(StartKeyboard()) + Buttons(TrainingKeyboard()) + Buttons(SetKeyboard()) + Buttons(ChooseKeyboard())
    ensures Route(b.data) != Ignored
  {
    FixedButtonData(b);
    ExactDataRouted(b.data);
  }

  /** The buttons of the fixed keyboards carry exact callback data. */
  lemma FixedButtonData(b: Button)
    requires b in Buttons(StartKeyboard()) + Buttons(TrainingKeyboard()) + Buttons(SetKeyboard()) + Buttons(ChooseKeyboard())
    ensures b.data in ExactData
  {
    if b in Buttons(StartKeyboard()) {
      StartButtonData(b);
    } else if b in Buttons(TrainingKeyboard()) {
      TrainingButtonData(b);
    } else {
      FixedKeyboardButtons();
    }
  }

  /** The start keyboard's buttons carry exact data. */
  lemma StartButtonData(b: Button)
    requires b in Buttons(StartKeyboard())
    ensures b.data in ExactData
  {
    FixedKeyboardButtons();
    assert b in {StartTrainingBtn, AddBtn};
  }

  /** The training keyboard's buttons carry exact data. */
  lemma TrainingButtonData(b: Button)
    requires b in Buttons(TrainingKeyboard())
    ensures b.data in ExactData
  {
    FixedKeyboardButtons();
    assert b in {StartSetBtn, EndTrainingBtn, AddBtn, ChooseExerciseBtn};
  }

  /** Data of a fixed button is never ignored. */
  lemma ExactDataRouted(data: string)
    requires data in ExactData
    ensures Route(data) != Ignored
  {
  }

  // ---------------------------------------------------------------------------
  // The text binding: which handler c.Bot().Handle(telebot.OnText, …) installed last

  datatype Binding = MainText | AddExerciseText | WeightText | RepsText

  /** An update the bot receives: a text message or a button press. */
  datatype Event = Text(text: string) | Press(data: string)

  /** The binding after a text message. WeightHandler re-binds on every
      message; RepsHandler re-binds itself on a rejected text and otherwise
      leaves the binding alone; the other two text handlers never re-bind. */
  function AfterText(b: Binding, text: string): Binding {
    match b
    case WeightText => if AcceptsWeight(text) then RepsText else WeightText
    case _ => b
  }

  /** The binding after a button press: add_exercise binds AddExerciseHandler,
      end_set binds WeightHandler, nothing else re-binds. */
  function AfterPress(b: Binding, data: string): Binding {
    match Route(data)
    case AddExercisePressed => AddExerciseText
    case EndSetPressed => WeightText
    case _ => b
  }

  function After(b: Binding, e: Event): Binding {
    match e
    case Text(t) => AfterText(b, t)
    case Press(d) => AfterPress(b, d)
  }

  /** The binding after a run of updates, from any user, in arrival order. */
  function Run(b: Binding, es: seq<Event>): Binding {
    if es == [] then b else After(Run(b, es[..|es| - 1]), es[|es| - 1])
  }

  /** Nothing binds MsgMainHandler again: once anyone has pressed add_exercise
      or end_set, "/start" is no longer recognised by the bot, for any user. */
  lemma {:induction false} NoReturnToMain(b: Binding, es: seq<Event>)
    requires b != MainText
    ensures Run(b, es) != MainText
  {
    if es != [] {
      NoReturnToMain(b, es[..|es| - 1]);
    }
  }

  /** After a weight, text messages keep being read as reps: only a press of
      add_exercise or end_set moves the binding away from RepsHandler. */
  lemma {:induction false} RepsBindingSticks(es: seq<Event>)
    requires forall k :: 0 <= k < |es| ==> !es[k].Press? || Route(es[k].data) !in {AddExercisePressed, EndSetPressed}
    ensures Run(RepsText, es) == RepsText
  {
    if es != [] {
      RepsBindingSticks(es[..|es| - 1]);
    }
  }

  /** Ending a set and then sending an accepted weight leaves the bot reading reps. */
  lemma EndSetThenWeight(b: Binding, w: string)
    requires AcceptsWeight(w)
    ensures Run(b, [Press(EndSetBtn.data), Text(w)]) == RepsText
  {
    FixedButtonsRouted();
    assert [Press(EndSetBtn.data), Text(w)][..1] == [Press(EndSetBtn.data)];
  }

  // ---------------------------------------------------------------------------
  // Replies

  /** What a handler sends: a new message or an edit of the pressed message,
      with its inline keyboard ([] for none). */
  datatype Reply = Send(text: string, markup: Markup) | Edit(text: string, markup: Markup) | Silent

  const UnknownCommand := "Неизвестная команда"
  const Greeting := "Привет! Бот позволяет тебе добавлять упраженияи, трекать тренировку и получать статистику"
  const WelcomeBack := "Давно не виделись!"
  const TrainingStarted := "Тренировка началась!"
  const TrainingEnded := "Тренировка завершена!"
  const ChooseFirst := "Для начала сэта выберите упражнение."
  const SetRunning := "Сэт идет!"
  const SetEnded := "Сэт завершен! Введите вес, который вы использовали."
  const WeightError := "Ошибка ввода веса. Пожалуйста, введите число c одной цифрой после запятой(точка тож сойдет)."
  const AskReps := "Теперь введите количество пfовторений."
  const RepsError := "Ошибка ввода повторений. Пожалуйста, введите целое число."
  const SetDone := "Сэт успешно завершен! Все данные затреканы!"
  const ChooseExercise := "Выберите упражнение"
  const ExerciseChosen := "Упражнение выбрано! Можете начинать!"
  const EnterExercise := "Введите упражнение"

  function Added(name: string): string {
    "Упражнение '" + name + "' добавлено."
  }

  // ---------------------------------------------------------------------------
  // The handlers

  /** BotHandler with the bot it is registered on: the store behind it and the
      handler currently bound to text messages. Time stamps are those of the
      message an update belongs to (for a button, the message that carries it). */
  class Bot {
    var onText: Binding
    const repo: Repository

    /** main.go binds MsgMainHandler to text messages at start-up. */
    constructor (repo: Repository)
      ensures this.repo == repo && onText == MainText
    {
      this.repo := repo;
      onText := MainText;
    }

    /** "/start": register an unknown user; either way show the start keyboard. */
    method StartHandler(u: UserId) returns (reply: Reply)
      modifies repo`users
      ensures repo.users == if old(repo.UserCheck(u)) then old(repo.users) else old(repo.users) + [u]
      ensures repo.UserCheck(u)
      ensures reply == Send(if old(repo.UserCheck(u)) then WelcomeBack else Greeting, StartKeyboard())
    {
      var exists_ := repo.UserCheck(u);
      if !exists_ {
        repo.RegisterUser(u);
        reply := Send(Greeting, StartKeyboard());
      } else {
        reply := Send(WelcomeBack, StartKeyboard());
      }
    }

    method StartTrainingHandler(u: UserId, now: Time) returns (reply: Reply)
      modifies repo`trainings
      ensures repo.trainings == old(repo.trainings) + [TrainingRow(u, now, None)]
      ensures repo.IsTrainingActive(u)
      ensures reply == Edit(TrainingStarted, TrainingKeyboard())
    {
      repo.StartTraining(u, now);
      assert ActiveTraining(repo.trainings[|repo.trainings| - 1], u);
      reply := Edit(TrainingStarted, TrainingKeyboard());
    }

    method EndTrainingHandler(u: UserId, now: Time) returns (reply: Reply)
      modifies repo`trainings
      ensures repo.trainings == CloseTrainings(old(repo.trainings), u, now)
      ensures !repo.IsTrainingActive(u)
      ensures reply == Edit(TrainingEnded, StartKeyboard())
    {
      repo.EndTraining(u, now);
      reply := Edit(TrainingEnded, StartKeyboard());
    }

    /** A set starts only once an exercise is chosen; otherwise the user is sent to choose one. */
    method StartSetHandler(u: UserId, now: Time) returns (reply: Reply)
      modifies repo`sets
      ensures old(repo.IsExerciseChosen(u)) ==>
        repo.sets == StampSetStarts(old(repo.sets), u, now) && reply == Edit(SetRunning, SetKeyboard())
      ensures !old(repo.IsExerciseChosen(u)) ==>
        repo.sets == old(repo.sets) && reply == Edit(ChooseFirst, ChooseKeyboard())
    {
      var isChosen := repo.IsExerciseChosen(u);
      if !isChosen {
        reply := Edit(ChooseFirst, ChooseKeyboard());
      } else {
        repo.StartSet(u, now);
        reply := Edit(SetRunning, SetKeyboard());
      }
    }

    method EndSetHandler(u: UserId, now: Time) returns (reply: Reply)
      modifies repo`sets, this`onText
      ensures repo.sets == StampSetEnds(old(repo.sets), u, now)
      ensures !repo.IsExerciseChosen(u)
      ensures onText == WeightText
      ensures reply == Send(SetEnded, [])
    {
      repo.EndSet(u, now);
      reply := Send(SetEnded, []);
      onText := WeightText;
    }

    /** weight is what strconv.ParseFloat reads from the normalised text. An
        accepted text fills the user's weights and moves on to reps; a rejected
        one changes nothing and asks again. */
    method WeightHandler(u: UserId, text: string, weight: real) returns (reply: Reply)
      modifies repo`sets, this`onText
      ensures AcceptsWeight(text) ==>
        repo.sets == FillWeights(old(repo.sets), u, weight) && reply == Send(AskReps, [])
      ensures !AcceptsWeight(text) ==>
        repo.sets == old(repo.sets) && reply == Send(WeightError, [])
      ensures onText == AfterText(WeightText, text)
    {
      var msg := ReplaceCommas(text);
      if MatchWeight(msg) {
        repo.SetWeight(u, weight);
        reply := Send(AskReps, []);
        onText := RepsText;
      } else {
        reply := Send(WeightError, []);
        onText := WeightText;
      }
    }

    /** An accepted text is read by strconv.Atoi and fills the user's reps; the
        binding is left as it was. A rejected one changes nothing and re-binds
        this handler. */
    method RepsHandler(u: UserId, text: string) returns (reply: Reply)
      modifies repo`sets, this`onText
      ensures AcceptsReps(text) ==>
        && Atoi(text).Some? && ShowNat(Atoi(text).value) == text
        && repo.sets == FillReps(old(repo.sets), u, Atoi(text).value)
        && reply == Send(SetDone, TrainingKeyboard())
        && onText == old(onText)
      ensures !AcceptsReps(text) ==>
        repo.sets == old(repo.sets) && reply == Send(RepsError, []) && onText == RepsText
    {
      if MatchReps(text) {
        AcceptedRepsCanonical(text);
        var reps := Atoi(text).value;
        repo.SetReps(u, reps);
        reply := Send(SetDone, TrainingKeyboard());
      } else {
        reply := Send(RepsError, []);
        onText := RepsText;
      }
    }

    /** The text becomes an exercise of the user, with the id the table assigns;
        the keyboard shown depends on whether a training is under way. */
    method AddExerciseHandler(u: UserId, text: string, assignedId: int) returns (reply: Reply)
      modifies repo`exercises
      ensures repo.exercises == old(repo.exercises) + [ExerciseRow(u, assignedId, text)]
      ensures reply == Send(Added(text), if repo.IsTrainingActive(u) then TrainingKeyboard() else StartKeyboard())
    {
      repo.AddExercise(u, text, assignedId);
      var isActive := repo.IsTrainingActive(u);
      if isActive {
        reply := Send(Added(text), TrainingKeyboard());
      } else {
        reply := Send(Added(text), StartKeyboard());
      }
    }

    /** Text while MsgMainHandler is bound: only "/start" is a command. */
    method MsgMainHandler(u: UserId, text: string) returns (reply: Reply)
      modifies repo`users
      ensures text == "/start" ==>
        && repo.users == (if old(repo.UserCheck(u)) then old(repo.users) else old(repo.users) + [u])
        && repo.UserCheck(u)
        && reply == Send(if old(repo.UserCheck(u)) then WelcomeBack else Greeting, StartKeyboard())
      ensures text != "/start" ==> repo.users == old(repo.users) && reply == Send(UnknownCommand, StartKeyboard())
    {
      if text == "/start" {
        reply := StartHandler(u);
      } else {
        reply := Send(UnknownCommand, StartKeyboard());
      }
    }

    /** telebot.OnText: the text goes to whichever handler is bound. weight is
        what ParseFloat would read from it, assignedId the id a new exercise row
        would get. */
    method OnText(u: UserId, text: string, weight: real, assignedId: int) returns (reply: Reply)
      modifies repo`users, repo`sets, repo`exercises, this`onText
      ensures onText == AfterText(old(onText), text)
      ensures old(onText) != MainText || text != "/start" ==> repo.users == old(repo.users)
      ensures old(onText) == MainText && text == "/start" ==>
        && repo.users == (if old(repo.UserCheck(u)) then old(repo.users) else old(repo.users) + [u])
        && repo.UserCheck(u)
        && reply == Send(if old(repo.UserCheck(u)) then WelcomeBack else Greeting, StartKeyboard())
      ensures old(onText) == MainText && text != "/start" ==> reply == Send(UnknownCommand, StartKeyboard())
      ensures old(onText) == AddExerciseText ==>
        reply == Send(Added(text), if repo.IsTrainingActive(u) then TrainingKeyboard() else StartKeyboard())
      ensures old(onText) == WeightText ==>
        reply == Send(if AcceptsWeight(text) then AskReps else WeightError, [])
      ensures old(onText) == RepsText ==>
        reply == if AcceptsReps(text) then Send(SetDone, TrainingKeyboard()) else Send(RepsError, [])
      ensures old(onText) != AddExerciseText ==> repo.exercises == old(repo.exercises)
      ensures old(onText) == AddExerciseText ==> repo.exercises == old(repo.exercises) + [ExerciseRow(u, assignedId, text)]
      ensures old(onText) == WeightText ==>
        repo.sets == if AcceptsWeight(text) then FillWeights(old(repo.sets), u, weight) else old(repo.sets)
      ensures old(onText) == RepsText ==>
        repo.sets == if AcceptsReps(text) then FillReps(old(repo.sets), u, Atoi(text).value) else old(repo.sets)
      ensures old(onText) in {MainText, AddExerciseText} ==> repo.sets == old(repo.sets)
    {
      match onText
      case MainText =>
        reply := MsgMainHandler(u, text);
      case AddExerciseText =>
        reply := AddExerciseHandler(u, text, assignedId);
      case WeightText =>
        reply := WeightHandler(u, text, weight);
      case RepsText =>
        reply := RepsHandler(u, text);
    }

    /** DataHandler (telebot.OnCallback): one button press. */
    method DataHandler(u: UserId, data: string, now: Time) returns (reply: Reply)
      modifies repo`trainings, repo`sets, this`onText
      ensures onText == AfterPress(old(onText), data)
      ensures Route(data).StartTrainingPressed? ==>
        repo.trainings == old(repo.trainings) + [TrainingRow(u, now, None)] && repo.IsTrainingActive(u)
      ensures Route(data).EndTrainingPressed? ==>
        repo.trainings == CloseTrainings(old(repo.trainings), u, now) && !repo.IsTrainingActive(u)
      ensures !Route(data).StartTrainingPressed? && !Route(data).EndTrainingPressed? ==>
        repo.trainings == old(repo.trainings)
      ensures Route(data).PickExercise? ==>
        && repo.sets == old(repo.sets) + [SetRow(u, Some(Route(data).name), None, None, None, None)]
        && repo.IsExerciseChosen(u)
        && reply == Edit(ExerciseChosen, TrainingKeyboardWithExerciseChosen())
      ensures Route(data).StartSetPressed? ==>
        repo.sets == if old(repo.IsExerciseChosen(u)) then StampSetStarts(old(repo.sets), u, now) else old(repo.sets)
      ensures Route(data).EndSetPressed? ==>
        repo.sets == StampSetEnds(old(repo.sets), u, now) && !repo.IsExerciseChosen(u)
      ensures !Route(data).PickExercise? && !Route(data).StartSetPressed? && !Route(data).EndSetPressed? ==>
        repo.sets == old(repo.sets)
      ensures Route(data).Paginate? ==>
        reply.Edit? && reply.text == ChooseExercise
        && IsPageKeyboard(reply.markup, repo.GetPage(u, Route(data).page), NavRow(Route(data).page, repo.MaxPages(u)))
      ensures Route(data).ChooseExercisePressed? ==>
        reply.Edit? && reply.text == ChooseExercise
        && IsPageKeyboard(reply.markup, repo.GetPage(u, 1), NavRow(1, repo.MaxPages(u)))
      ensures Route(data).AddExercisePressed? ==> reply == Send(EnterExercise, [])
      ensures Route(data).StartTrainingPressed? ==> reply == Edit(TrainingStarted, TrainingKeyboard())
      ensures Route(data).EndTrainingPressed? ==> reply == Edit(TrainingEnded, StartKeyboard())
      ensures Route(data).StartSetPressed? ==>
        reply == if old(repo.IsExerciseChosen(u)) then Edit(SetRunning, SetKeyboard()) else Edit(ChooseFirst, ChooseKeyboard())
      ensures Route(data).EndSetPressed? ==> reply == Send(SetEnded, [])
      ensures Route(data) == Ignored || Route(data).ShowStatsPressed? ==> reply == Silent
    {
      match Route(data)
      case Paginate(page) =>
        var kb := PagKeyboard(repo, u, page);
        reply := Edit(ChooseExercise, kb);
      case PickExercise(name) =>
        repo.SetExercise(u, name);
        reply := Edit(ExerciseChosen, TrainingKeyboardWithExerciseChosen());
      case StartTrainingPressed =>
        reply := StartTrainingHandler(u, now);
      case AddExercisePressed =>
        reply := Send(EnterExercise, []);
        onText := AddExerciseText;
      case EndTrainingPressed =>
        reply := EndTrainingHandler(u, now);
      case StartSetPressed =>
        reply := StartSetHandler(u, now);
      case EndSetPressed =>
        reply := EndSetHandler(u, now);
      case ChooseExercisePressed =>
        var kb := PagKeyboard(repo, u, 1);
        reply := Edit(ChooseExercise, kb);
      case ShowStatsPressed =>
        reply := Silent;
      case Ignored =>
        reply := Silent;
    }
  }
}
