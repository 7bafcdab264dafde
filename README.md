# Workout bot: store, conversation and keyboards

A Dafny model of the core of a Telegram workout-tracking bot written in Go:

- **the workout store** (`internal/infrastructure/postgres/DBHandler.go`): the tables
  users, trainings, sets and exercises are held as row sequences in the class
  `Store.Repository`. Each repository method is one SQL statement, modelled by its effect on the rows:
  - INSERTs append a row;
  - masked UPDATEs ("set the column to v on every row of user u where it IS NULL") are `Tables.MaskedUpdate`;
  - COUNT is `Tables.Count` and SELECT is `Tables.Filter`;
  - SQL NULL is `None`, and timestamps are integers;
  - the three per-training averages are methods with the source's two loops (collect the counts, then sum them). Each returns the pair (sum, number of trainings) instead of a float quotient.
- **the input validators** (`hanlders.go`): the weight and reps regular expressions are written twice: as the grammar they denote, and as left-to-right recognisers. Each recogniser is proved to accept exactly that grammar's language. Weight text first has every `,` replaced by `.`.
- **the conversation** (`hanlders.go`):
  - The class `Handlers.Bot` holds the store and the handler that text messages are currently bound to. The source re-binds it through `c.Bot().Handle(telebot.OnText, …)`, so the binding is one value for the whole bot, not one per user.
  - Callback data is classified by `Handlers.Route`: the prefixes `next_`, `prev_` and `exercise_` are tested first, then the exact button values.
  - Every handler method states its effect on the store, the binding and the reply.
- **the keyboards** (`keyboard.go`):
  - the fixed keyboards are values;
  - `Keyboard.PagKeyboard` builds the exercise picker with the source's two append loops;
  - `Keyboard.NavRow` is the decision table for the navigation row.

The files are `tables.dfy` (generic row operations), `store.dfy`, `decimal.dfy` (`%d` and `strconv.Atoi`), `input.dfy`, `keyboard.dfy` and `handlers.dfy`.

Inputs the model cannot compute are parameters:
- the message time (`c.Message().Time()`; for a button press, the time of the message that carries the button);
- the float `strconv.ParseFloat` reads from an accepted weight;
- the `exercise_id` the table assigns to a new exercise row, because the INSERT does not supply one (DBHandler.go:166).

The reps value is computed: an accepted reps text is read by the modelled `Atoi`.

`StartTrainig` has no guard: a second start opens a second training. `StartSet` writes only rows with a chosen exercise and no start, and the handler also checks `IsExerciseChoosen` first. Text is re-bound through one global binding; the stage of a conversation is not derived from stored facts.

## Model

| member | source | states |
|---|---|---|
| Tables.CountPositive | internal/infrastructure/postgres/DBHandler.go:202-224 | `COUNT(*) > 0` holds exactly when some row satisfies the WHERE clause (the basis of the boolean checks). |
| Tables.FilterComplete | internal/infrastructure/postgres/DBHandler.go:291-329 | A SELECT returns every matching row as often as it occurs in the table, and no other row. |
| Tables.MaskedUpdateAt | internal/infrastructure/postgres/DBHandler.go:45-67 | A masked UPDATE rewrites row i exactly when row i matches the WHERE clause; every other row keeps its value and its place. |
| Tables.MaskedUpdateIdempotent | internal/infrastructure/postgres/DBHandler.go:118-139 | When the update fills the NULL column its WHERE clause tests, running the statement again, with any value, changes nothing. |
| Store.EndTrainingEffect | internal/infrastructure/postgres/DBHandler.go:45-67 | EndTraining sets end to t on exactly u's trainings whose end is NULL; other users' rows and already-ended trainings are unchanged; afterwards u has no open training; a second call with another time changes nothing. |
| Store.StartSetEffect | internal/infrastructure/postgres/DBHandler.go:69-93 | StartSet stamps start only on u's sets whose start is NULL and whose exercise is not NULL; a set without an exercise never gets a start; a repeat changes nothing. |
| Store.EndSetEffect | internal/infrastructure/postgres/DBHandler.go:95-116 | EndSet fills end on exactly u's sets with end NULL; afterwards no chosen-and-open set of u remains; a repeat changes nothing. |
| Store.SetWeightEffect | internal/infrastructure/postgres/DBHandler.go:118-139 | SetWeight fills weight on exactly u's rows whose weight is NULL, whatever their other columns; a second call, with any weight, changes nothing. |
| Store.SetRepsEffect | internal/infrastructure/postgres/DBHandler.go:141-162 | SetReps fills reps on exactly u's rows whose reps is NULL; a second call, with any count, changes nothing. |
| Store.DoubleStartTwoActive | internal/infrastructure/postgres/DBHandler.go:27-43 | StartTrainig has no guard: two calls add two open trainings of u. |
| Store.PagesFor | internal/infrastructure/postgres/DBHandler.go:351 | `(count+4)/5` is the ceiling of count/5: zero exactly for no exercises, and 5*(m-1) < count <= 5*m otherwise. |
| Store.PagesForExamples | internal/infrastructure/postgres/DBHandler.go:351 | Counts 0, 1, 5, 6, 10 give 0, 1, 1, 2, 2 pages. |
| Store.NamesIn | internal/infrastructure/postgres/DBHandler.go:667-672 | COUNT(DISTINCT exercise_name) counts exactly the non-NULL names of the sets a training contains. |
| Store.OpenTrainingCountsNothing | internal/infrastructure/postgres/DBHandler.go:599-624 | Under SQL's NULL comparison a training whose end is NULL contains no set, under every measure. |
| Store.UnfinishedSetCountsNowhere | internal/infrastructure/postgres/DBHandler.go:599-624 | A set row with a NULL start or end counts toward no training. |
| Store.Counts | internal/infrastructure/postgres/DBHandler.go:636-652 | The per-training counts come one per training, in training order, each the containment count of that training. |
| Store.AveragesOrdered | internal/infrastructure/postgres/DBHandler.go:626-741 | Over the same trainings, the sum for one exercise and the sum of distinct exercises never exceed the sum of all sets. |
| Store.SortByStart | internal/infrastructure/postgres/DBHandler.go:543 | ORDER BY start_time: the result is sorted by start and is a permutation of its input. |
| Store.SumOf | internal/infrastructure/postgres/DBHandler.go:645-649 | The accumulation loop over the counts yields their sum. |
| Store.Repository.StartTraining | internal/infrastructure/postgres/DBHandler.go:27-43 | Appends exactly one training of u, started at t, with a NULL end. |
| Store.Repository.EndTraining | internal/infrastructure/postgres/DBHandler.go:45-67 | The trainings become the masked update of the old ones, and u has no active training afterwards. |
| Store.Repository.StartSet | internal/infrastructure/postgres/DBHandler.go:69-93 | The sets become the masked start-stamping update of the old ones. |
| Store.Repository.EndSet | internal/infrastructure/postgres/DBHandler.go:95-116 | The sets become the masked end-stamping update of the old ones, and no exercise is chosen afterwards. |
| Store.Repository.SetWeight | internal/infrastructure/postgres/DBHandler.go:118-139 | The sets become the masked weight-filling update of the old ones. |
| Store.Repository.SetReps | internal/infrastructure/postgres/DBHandler.go:141-162 | The sets become the masked reps-filling update of the old ones. |
| Store.Repository.AddExercise | internal/infrastructure/postgres/DBHandler.go:164-181 | Appends one exercise row of u with the given name and the id the table assigns. |
| Store.Repository.SetExercise | internal/infrastructure/postgres/DBHandler.go:183-200 | Appends one set of u with only the exercise name filled, and an exercise is then chosen. |
| Store.Repository.RegisterUser | internal/infrastructure/postgres/DBHandler.go:226-244 | Appends u to the users, after which UserCheck(u) holds. |
| Store.Repository.UserCheck | internal/infrastructure/postgres/DBHandler.go:246-268 | True exactly when u is a registered user. |
| Store.Repository.IsExerciseChosen | internal/infrastructure/postgres/DBHandler.go:202-224 | True exactly when some set of u has a NULL end and a non-NULL exercise. |
| Store.Repository.IsTrainingActive | internal/infrastructure/postgres/DBHandler.go:354-380 | True exactly when some training of u has a NULL end (start is never NULL). |
| Store.Repository.MaxExerciseId | internal/infrastructure/postgres/DBHandler.go:270-289 | None exactly when u has no exercises; otherwise an id of one of u's exercises that no other id of u exceeds. |
| Store.Repository.GetPage | internal/infrastructure/postgres/DBHandler.go:291-329 | A name is on page p exactly when some exercise of u with that name has an id in (5p-5, 5p], and it occurs as many times as such rows carry it. |
| Store.PageNameCount | internal/infrastructure/postgres/DBHandler.go:291-329 | For any table, each name occurs among the selected page names exactly as often as the page's rows carry it. |
| Store.Repository.PageAtMostFive | internal/infrastructure/postgres/DBHandler.go:293-294 | When u's exercise ids are distinct, a page holds at most five names. |
| Store.Repository.PagesDisjoint | internal/infrastructure/postgres/DBHandler.go:293-294 | No exercise row lies in two different pages. |
| Store.Repository.MaxPages | internal/infrastructure/postgres/DBHandler.go:331-352 | The page count is PagesFor of the number of u's exercises. |
| Store.Repository.GetTrainings | internal/infrastructure/postgres/DBHandler.go:538-577 | u's trainings ordered by start: each one is u's, and they are all of u's training rows, as a permutation. |
| Store.Repository.GetTrainingsCount | internal/infrastructure/postgres/DBHandler.go:491-510 | Zero exactly when u has no training. |
| Store.Repository.GetTotalSetsPerExercise | internal/infrastructure/postgres/DBHandler.go:512-536 | Zero exactly when u has no set of that exercise. |
| Store.Repository.GetSetsCount | internal/infrastructure/postgres/DBHandler.go:599-624 | Zero exactly when the training contains no set of that exercise; never more than the user's total for the exercise. |
| Store.Repository.AveragePerTraining | internal/infrastructure/postgres/DBHandler.go:626-741 | The loops yield the sum of the per-training counts over GetTrainings and the number of trainings; the denominator is zero exactly when u has no trainings. |
| Store.Repository.GetAverageSetsPerExercise | internal/infrastructure/postgres/DBHandler.go:626-653 | The per-exercise average, as (sum over u's trainings of GetSetsCount, number of trainings). |
| Store.Repository.GetAverageExercisesPerTraining | internal/infrastructure/postgres/DBHandler.go:655-698 | The distinct-exercises average, as (sum of the per-training distinct counts, number of trainings). |
| Store.Repository.GetAverageSetsPerTraining | internal/infrastructure/postgres/DBHandler.go:700-741 | The sets average, as (sum of the per-training set counts, number of trainings). |
| Decimal.ShowNat | internal/interface/telegram/keyboard.go:84 | `%d` of a count is a non-empty digit string with no superfluous leading zero. |
| Decimal.AtoiShowInt | internal/interface/telegram/hanlders.go:57 | strconv.Atoi reads `%d` of every integer back as that integer. |
| Decimal.ShowNatOfValue | internal/interface/telegram/hanlders.go:234 | A digit string without a superfluous leading zero is exactly `%d` of its value. |
| Input.MatchWeightSound | internal/interface/telegram/hanlders.go:15 | Every text the weight recogniser accepts is in the pattern's language. |
| Input.MatchWeightComplete | internal/interface/telegram/hanlders.go:15 | Every text in the weight pattern's language is accepted. |
| Input.MatchWeightCorrect | internal/interface/telegram/hanlders.go:15 | The weight recogniser accepts exactly `^([1-9]\d*\|0)(\.\d+)?([eE][+-]?\d+)?$`. |
| Input.MatchRepsCorrect | internal/interface/telegram/hanlders.go:16 | The reps recogniser accepts exactly `^(0\|[1-9]\d*)$`. |
| Input.RepsAreWeights | internal/interface/telegram/hanlders.go:15-16 | Every valid reps text is also a valid weight text. |
| Input.ReplaceCommas | internal/interface/telegram/hanlders.go:200 | Each `,` becomes `.` and every other character is kept; the length is unchanged. |
| Input.CommaIsPoint | internal/interface/telegram/hanlders.go:200-202 | Texts differing only by `,` versus `.` are normalised alike and accepted alike ("12,5" and "12.5"). |
| Input.ReplaceCommasIdempotent | internal/interface/telegram/hanlders.go:200 | The normalised text has no comma, so normalising twice is normalising once. |
| Input.SignedOrEmptyRejected | internal/interface/telegram/hanlders.go:15-16 | An empty text, or one that starts with a sign, is neither a weight nor reps. |
| Input.LeadingZeroRejected | internal/interface/telegram/hanlders.go:15-16 | A leading zero followed by a digit ("01") is neither a weight nor reps. |
| Input.RepsRoundTrip | internal/interface/telegram/hanlders.go:232-240 | `%d` of every count is accepted as reps and read back as that count. |
| Input.AcceptedRepsCanonical | internal/interface/telegram/hanlders.go:232-240 | An accepted reps text is read by Atoi as a non-negative count, and the text is that count's only spelling. |
| Input.WeightExamples | internal/interface/telegram/hanlders.go:15 | "12,5" is normalised to "12.5"; "12,5", "12.5", "0" and "2.5e3" are accepted weights. |
| Input.RejectedWeightExamples | internal/interface/telegram/hanlders.go:15 | "abc", "01" and "1." are rejected as weights. |
| Input.RepsExamples | internal/interface/telegram/hanlders.go:16 | "0" and "12" are accepted as reps; "1.0", "1,0" and "01" are rejected. |
| Keyboard.FixedKeyboardButtons | internal/interface/telegram/keyboard.go:41-77 | StartKeyboard offers start_training and add_exercise; TrainingKeyboard start_set, end_training, add_exercise and choose_exercise; the exercise-chosen keyboard is that without choose_exercise; SetKeyboard only end_set; ChooseKeyboard only choose_exercise. |
| Keyboard.NavRow | internal/interface/telegram/keyboard.go:116-127 | No navigation row exactly for page 1 of 1; otherwise the row is Previous unless the page is 1, followed by Next unless the page is maxPage, for every page and maxPage; inside 1..maxPage, Next shows exactly when the page is not the last, and Previous exactly when it is not the first. |
| Keyboard.EmptyCatalogueFirstPage | internal/interface/telegram/keyboard.go:111-117 | A user without exercises (maxPage 0) is offered Next on page 1. |
| Keyboard.NavigationPastTheEnd | internal/interface/telegram/keyboard.go:125-127 | Past the last page (page 1 excepted) both Previous and Next are offered, so an empty catalogue pages forward without end. |
| Keyboard.PagKeyboard | internal/interface/telegram/keyboard.go:79-132 | One row per page entry, in page order, each one button with the name as text and `exercise_`+name as data; then the navigation row, if any; the row count is the page size plus one unless page 1 of 1. |
| Keyboard.PickerOffersOwnExercises | internal/interface/telegram/keyboard.go:98-109 | Every non-navigation button in a picker picks an exercise of this user on this page. |
| Handlers.PageOf | internal/interface/telegram/hanlders.go:57-60 | A digit string, unsigned or after `+` or `-`, is read as its signed decimal value; a suffix that is not one or more digits after an optional sign is read as page 0. |
| Handlers.PageOfShowInt | internal/interface/telegram/hanlders.go:57-60 | Reading back the page number a navigation button writes with `%d` gives that page, for every integer. |
| Handlers.Route | internal/interface/telegram/hanlders.go:54-103 | Data with prefix next_ or prev_ paginates, to the page PageOf reads from the text after the prefix; `exercise_X` picks X; only data matching no prefix and no button value is ignored. |
| Handlers.RouteNext | internal/interface/telegram/hanlders.go:55-62 | The Next button of page c opens page c+1. |
| Handlers.RoutePrev | internal/interface/telegram/hanlders.go:64-71 | The Previous button of page c opens page c-1. |
| Handlers.RouteExercise | internal/interface/telegram/hanlders.go:73-82 | The button of exercise X picks X, whatever X is. |
| Handlers.FixedButtonsRouted | internal/interface/telegram/hanlders.go:84-101 | Each fixed button reaches its own case of the switch. |
| Handlers.FixedKeyboardsHandled | internal/interface/telegram/hanlders.go:84-101 | No button of a fixed keyboard is ignored by the callback handler. |
| Handlers.NoReturnToMain | internal/interface/telegram/hanlders.go:187-252 | No update re-binds MsgMainHandler: once the binding has left it, "/start" is never recognised again, for any user. |
| Handlers.RepsBindingSticks | internal/interface/telegram/hanlders.go:230-252 | From RepsHandler, only a press of add_exercise or end_set moves the binding; every text, accepted or not, keeps it. |
| Handlers.EndSetThenWeight | internal/interface/telegram/hanlders.go:187-218 | Ending a set and then sending an accepted weight leaves text bound to RepsHandler. |
| Handlers.Bot.constructor | cmd/main.go:57-58 | The bot starts with text bound to MsgMainHandler. |
| Handlers.Bot.StartHandler | internal/interface/telegram/hanlders.go:113-136 | Registers u only when UserCheck is false; u is registered afterwards; greets a new user and welcomes back a known one, with the start keyboard. |
| Handlers.Bot.StartTrainingHandler | internal/interface/telegram/hanlders.go:138-150 | Appends an open training at the message time; u then has an active training; shows the training keyboard. |
| Handlers.Bot.EndTrainingHandler | internal/interface/telegram/hanlders.go:152-163 | Closes u's open trainings; none stays active; shows the start keyboard. |
| Handlers.Bot.StartSetHandler | internal/interface/telegram/hanlders.go:165-185 | Calls StartSet only when an exercise is chosen (set keyboard); otherwise leaves the sets alone and shows the choose keyboard. |
| Handlers.Bot.EndSetHandler | internal/interface/telegram/hanlders.go:187-196 | Ends u's open sets, after which none is chosen, and binds WeightHandler. |
| Handlers.Bot.WeightHandler | internal/interface/telegram/hanlders.go:198-228 | An accepted (normalised) text fills the weights and binds RepsHandler; a rejected one changes no row and binds WeightHandler again. |
| Handlers.Bot.RepsHandler | internal/interface/telegram/hanlders.go:230-252 | An accepted text fills the reps with its value and leaves the binding as it was; a rejected one changes no row and binds RepsHandler. |
| Handlers.Bot.AddExerciseHandler | internal/interface/telegram/hanlders.go:254-276 | Adds the text as an exercise of u and does not re-bind; shows the training keyboard exactly when a training is active. |
| Handlers.Bot.MsgMainHandler | internal/interface/telegram/hanlders.go:34-47 | "/start" registers an unknown user and answers with the greeting, or the welcome-back text for a known one, and the start keyboard; any other text changes nothing and answers "unknown command" with the start keyboard. |
| Handlers.Bot.OnText | internal/interface/telegram/hanlders.go:187-276 | A text goes to the bound handler: the new binding is AfterText of the old, only the bound handler's table changes, and the reply is the bound handler's reply for that text. |
| Handlers.Bot.DataHandler | internal/interface/telegram/hanlders.go:49-111 | Each routed press has its handler's effect on trainings and sets and its handler's reply; only add_exercise and end_set re-bind; paging and choose_exercise show the picker of the requested page. |

## Left out

- Errors from the database driver and from Telegram are not modelled: ToSql, Query, Scan, Send and Edit never fail in the model. The error returns and the logging that follow them are left out too.
- Store.Repository.GetTrainings: the source scans end_time into a non-nullable `time.Time`, so a user with an open training makes GetTrainings fail, and with it the three averages. The model keeps the open training, which contributes zero to every count.
- Store.Repository.GetTotalSetsPerExercise, GetAverageExercisesPerTraining, GetAverageSetsPerTraining: three statements (DBHandler.go:514-518, 667-672 and 710-715) are built without the Dollar placeholder format. Their `?` placeholders depend on the driver. The model gives the statements' intended effect.
- Store.Repository.MaxExerciseId: MAX over no rows is NULL, and scanning it into an `int` fails in the source. The model answers None.
- domain.Training (internal/domain/entity/entity.go) has no user field, although DBHandler.go reads and writes `training.User_id`. Training rows in the model carry their user.
- Store.Repository.AveragePerTraining: the averages are the integer pair (sum, number of trainings). The float division, and the NaN that 0/0 gives in the source, are not modelled.
- Store.Repository.GetPage: the statement has no ORDER BY, so the order of the picker's rows is whatever the database returns. The model returns them in table order.
- Store.SortByStart: trainings with equal start_time come back in the database's order. The model keeps their table order.
- Integers are unbounded: int64 overflow of ids, counts and page numbers, and Atoi's range error, are not modelled.
- Handlers.Bot.WeightHandler: the float that ParseFloat reads is a parameter. ParseFloat can still fail on an accepted text, on float64 overflow such as "1e400". The source then sends the error message, re-binds WeightHandler, and carries on to SetWeight with an infinite weight and a RepsHandler binding. The model has only the final binding, with a real weight, and no extra message.
- Handlers.Bot.RepsHandler: the Atoi error branch (an int64 overflow of an accepted text) sends an extra error message in the source. The model does not have it.
- Handlers.Bot.DataHandler: show_stats (StatsHandler, GenerateExelStats, the spreadsheet file and its upload) is answered with no reply and no effect. No keyboard offers that button.
- GetMostPopularExercise and GetLeastPopularExercise are left out. They group an `exercise_name` column that the exercises table does not have, and their tie order is decided by the database.
- GetAverageWeight, GetAverageReps, GetAverageTrainingsLenght and GetExercises are left out. They depend on float AVG inside the database, on interval scanning, or on scanning several rows into one slice.
- The text of SQL statements, query building and logging are left out.
- Concurrency is left out. Updates are handled one at a time, and the model has the source's single global binding.
- Start-up (cmd/main.go apart from the initial binding), environment loading, long polling, and the format helpers are left out.
