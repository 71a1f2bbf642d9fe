/**
 * The dish service that ties the memory and the client together: one suggestion
 * (`get_random_dish`), the 7 x 3 weekly menu (`generate_weekly_menu`) and its
 * rendering as a chat message (`format_weekly_menu`).
 * The memory and the client are passed in explicitly instead of being module globals.
 */
module AiHelper {
  import opened Wrappers
  import opened Strings
  import opened MemoryManager
  import opened AiClients

  /** The key value that a fresh configuration file holds in place of a real key. */
  const PlaceholderKey := "your_openai_key_here"

  /** The prompt builder: a prompt from the meal type and the avoid clause. */
  type Prompter = (string, string) -> string

  /**
   * What the service reads from its surroundings: the `OPENAI_API_KEY` environment
   * variable, the configured key, and the prompt builder.
   */
  datatype Setup = Setup(envKey: Option<string>, configKey: Option<string>, prompter: Prompter)

  /** What the outside world does in one suggestion: the providers' answers and the random pick. */
  datatype Draw = Draw(respond: Responder, choice: nat)

  /** `os.getenv('OPENAI_API_KEY') or OPENAI_API_KEY`. */
  function ApiKey(setup: Setup): (k: Option<string>)
    ensures Truthy(k) <==> Truthy(setup.envKey) || Truthy(setup.configKey)
    ensures Truthy(setup.envKey) ==> k == setup.envKey
  {
    if Truthy(setup.envKey) then setup.envKey else setup.configKey
  }

  /** The key check passes: some key is set and it is not the placeholder. */
  predicate KeyConfigured(setup: Setup)
    ensures KeyConfigured(setup) ==> Truthy(setup.envKey) || Truthy(setup.configKey)
    ensures Truthy(setup.envKey) ==> (KeyConfigured(setup) <==> setup.envKey.value != PlaceholderKey)
  {
    Truthy(ApiKey(setup)) && ApiKey(setup).value != PlaceholderKey
  }

  /** The prompt sent for `mealType`, built from the avoid clause of the memory as it was. */
  function PromptFor(recent: map<string, seq<string>>, setup: Setup, mealType: string): (r: string)
    ensures Recent(recent, mealType) == [] ==> r == setup.prompter(mealType, "")
  {
    setup.prompter(mealType, AvoidText(recent, mealType))
  }

  /**
   * One `get_random_dish` call on the memory's value: the dish returned and the new
   * memory. The default dish comes back, with nothing recorded, when the key check
   * fails, when the client raises, or when its answer is empty.
   */
  function Suggest(recent: map<string, seq<string>>, maxDishes: int, st: ClientState,
                   setup: Setup, mealType: string, draw: Draw): (r: (string, map<string, seq<string>>))
    requires ChoiceInRange(st, draw.choice)
    ensures r.0 != ""
    ensures r.1 == recent || r.1 == Added(recent, maxDishes, mealType, r.0)
  {
    if !KeyConfigured(setup) then (FallbackDish, recent)
    else
      var answer := Completion(st, PromptFor(recent, setup, mealType), draw.respond, draw.choice);
      if answer.Raised? || answer.value == "" then (FallbackDish, recent)
      else (answer.value, Added(recent, maxDishes, mealType, answer.value))
  }

  /** Without a usable key, or under `mixed` with nothing registered, nothing is asked and nothing recorded. */
  lemma SuggestFallsBack(recent: map<string, seq<string>>, maxDishes: int, st: ClientState,
                         setup: Setup, mealType: string, draw: Draw)
    requires ChoiceInRange(st, draw.choice)
    requires !KeyConfigured(setup) || ChoosesFromEmpty(st)
    ensures Suggest(recent, maxDishes, st, setup, mealType, draw) == (FallbackDish, recent)
  {
  }

  /**
   * Otherwise the client's answer, which is never blank, is returned unchanged and
   * recorded under `mealType`.
   */
  lemma SuggestRecordsAnswer(recent: map<string, seq<string>>, maxDishes: int, st: ClientState,
                             setup: Setup, mealType: string, draw: Draw)
    requires ChoiceInRange(st, draw.choice)
    requires KeyConfigured(setup) && !ChoosesFromEmpty(st)
    ensures var answer := Completion(st, PromptFor(recent, setup, mealType), draw.respond, draw.choice);
      && answer.Ok? && !Blank(answer.value)
      && Suggest(recent, maxDishes, st, setup, mealType, draw) == (answer.value, Added(recent, maxDishes, mealType, answer.value))
  {
  }

  /**
   * `get_random_dish`: reads the avoid clause first, checks the key, asks the client,
   * and records a non-empty answer under `mealType` before returning it.
   */
  method GetRandomDish(memory: DishMemory, client: MultiAIClient, setup: Setup, mealType: string, draw: Draw)
    returns (dish: string)
    requires memory.Valid() && ChoiceInRange(client.State(), draw.choice)
    modifies memory
    ensures memory.Valid()
    ensures memory.maxDishes == old(memory.maxDishes)
    ensures (dish, memory.recentDishes) == Suggest(old(memory.recentDishes), old(memory.maxDishes), client.State(), setup, mealType, draw)
  {
    var avoidText := memory.GetAvoidListText(mealType);
    if !KeyConfigured(setup) {
      return FallbackDish;
    }
    var prompt := setup.prompter(mealType, avoidText);
    var result, _ := client.GetCompletion(prompt, draw.respond, draw.choice);
    match result
    case Raised(_) =>
      return FallbackDish;
    case Ok(dishName) =>
      if dishName == "" {
        return FallbackDish;
      }
      memory.AddDish(mealType, dishName);
      return dishName;
  }

  /**
   * When every provider fails or answers blank, the client's default dish is not empty,
   * so the service records it in the memory like any other answer.
   */
  lemma ExhaustionDefaultIsRecorded(recent: map<string, seq<string>>, maxDishes: int, st: ClientState,
                                    setup: Setup, mealType: string, draw: Draw)
    requires ChoiceInRange(st, draw.choice) && !ChoosesFromEmpty(st) && KeyConfigured(setup)
    requires forall n :: n in TryOrder(st, draw.choice) ==>
      !Usable(draw.respond(n, PromptFor(recent, setup, mealType)))
    ensures Suggest(recent, maxDishes, st, setup, mealType, draw) ==
      (FallbackDish, Added(recent, maxDishes, mealType, FallbackDish))
  {
    var order := TryOrder(st, draw.choice);
    var prompt := PromptFor(recent, setup, mealType);
    AttemptExhausted(order, prompt, draw.respond);
  }

  /**
   * The first provider in the try order that answers usably decides the dish, which
   * is returned unchanged and recorded under `mealType`.
   */
  lemma FirstAnswerIsRecorded(recent: map<string, seq<string>>, maxDishes: int, st: ClientState,
                              setup: Setup, mealType: string, draw: Draw, k: nat)
    requires ChoiceInRange(st, draw.choice) && !ChoosesFromEmpty(st) && KeyConfigured(setup)
    requires k < |TryOrder(st, draw.choice)|
    requires Usable(draw.respond(TryOrder(st, draw.choice)[k], PromptFor(recent, setup, mealType)))
    requires forall i :: 0 <= i < k ==>
      !Usable(draw.respond(TryOrder(st, draw.choice)[i], PromptFor(recent, setup, mealType)))
    ensures var answer := draw.respond(TryOrder(st, draw.choice)[k], PromptFor(recent, setup, mealType)).text;
      Suggest(recent, maxDishes, st, setup, mealType, draw) == (answer, Added(recent, maxDishes, mealType, answer))
  {
    var order := TryOrder(st, draw.choice);
    var prompt := PromptFor(recent, setup, mealType);
    AttemptStopsAtFirstAnswer(order, prompt, draw.respond, k);
  }

  /**
   * The providers see nothing but the prompt: two worlds whose providers answer this
   * prompt alike give the same dish and the same memory.
   */
  lemma SuggestDependsOnlyOnPrompt(recent: map<string, seq<string>>, maxDishes: int, st: ClientState,
                                   setup: Setup, mealType: string, d1: Draw, d2: Draw)
    requires ChoiceInRange(st, d1.choice) && d1.choice == d2.choice && !ChoosesFromEmpty(st)
    requires forall n :: n in TryOrder(st, d1.choice) ==>
      d1.respond(n, PromptFor(recent, setup, mealType)) == d2.respond(n, PromptFor(recent, setup, mealType))
    ensures Suggest(recent, maxDishes, st, setup, mealType, d1) == Suggest(recent, maxDishes, st, setup, mealType, d2)
  {
    AttemptDependsOnPrompt(TryOrder(st, d1.choice), 0, PromptFor(recent, setup, mealType), d1.respond, d2.respond);
  }

  /** The days of the week, Monday first, as the menu names them. */
  const DayNames: seq<string> := ["Понедельник", "Вторник", "Среда", "Четверг", "Пятница", "Суббота", "Воскресенье"]

  /** One day of the menu: the day's name and its dish per meal type. */
  datatype DayEntry = DayEntry(day: string, meals: map<string, string>)

  /** The pick for call `i` of a week is usable by the client. */
  predicate DrawsInRange(st: ClientState, draws: seq<Draw>)
  {
    forall i :: 0 <= i < |draws| ==> ChoiceInRange(st, draws[i].choice)
  }

  /** The day has every meal and each dish is a non-empty name. */
  predicate FullDay(e: DayEntry)
  {
    e.meals.Keys == {Breakfast, Lunch, Dinner} && e.meals[Breakfast] != "" && e.meals[Lunch] != "" && e.meals[Dinner] != ""
  }

  /**
   * Day `d` of `generate_weekly_menu` on the memory's value: breakfast, then lunch,
   * then dinner, call `3 * d + j` using `draws[3 * d + j]` and seeing the memory the
   * previous call left.
   */
  function DayMenu(recent: map<string, seq<string>>, maxDishes: int, st: ClientState,
                   setup: Setup, draws: seq<Draw>, d: nat): (r: (DayEntry, map<string, seq<string>>))
    requires d < |DayNames| && 3 * d + 3 <= |draws| && DrawsInRange(st, draws)
    ensures r.0.day == DayNames[d] && FullDay(r.0)
    ensures r.1.Keys == recent.Keys
  {
    var b := Suggest(recent, maxDishes, st, setup, Breakfast, draws[3 * d]);
    var l := Suggest(b.1, maxDishes, st, setup, Lunch, draws[3 * d + 1]);
    var n := Suggest(l.1, maxDishes, st, setup, Dinner, draws[3 * d + 2]);
    (DayEntry(DayNames[d], map[Breakfast := b.0, Lunch := l.0, Dinner := n.0]), n.1)
  }

  /**
   * The first `n` days of `generate_weekly_menu`, each day seeing the memory the day
   * before left: one entry per day, in week order, each with exactly the three meal
   * types and a non-empty dish for each; the memory keeps its categories.
   */
  function WeekMenu(recent: map<string, seq<string>>, maxDishes: int, st: ClientState,
                    setup: Setup, draws: seq<Draw>, n: nat): (r: (seq<DayEntry>, map<string, seq<string>>))
    requires n <= |DayNames| && 3 * n <= |draws| && DrawsInRange(st, draws)
    ensures |r.0| == n && r.1.Keys == recent.Keys
    ensures forall i :: 0 <= i < n ==> r.0[i].day == DayNames[i] && FullDay(r.0[i])
  {
    if n == 0 then ([], recent)
    else
      var before := WeekMenu(recent, maxDishes, st, setup, draws, n - 1);
      var day := DayMenu(before.1, maxDishes, st, setup, draws, n - 1);
      (before.0 + [day.0], day.1)
  }

  /**
   * `generate_weekly_menu`: 21 suggestions, day by day and breakfast, lunch, dinner
   * within a day, so the memory sees them in that order.
   */
  method GenerateWeeklyMenu(memory: DishMemory, client: MultiAIClient, setup: Setup, draws: seq<Draw>)
    returns (menu: seq<DayEntry>)
    requires memory.Valid() && 3 * |DayNames| <= |draws| && DrawsInRange(client.State(), draws)
    modifies memory
    ensures memory.Valid()
    ensures memory.maxDishes == old(memory.maxDishes)
    ensures (menu, memory.recentDishes) ==
      WeekMenu(old(memory.recentDishes), old(memory.maxDishes), client.State(), setup, draws, |DayNames|)
  {
    menu := [];
    for d := 0 to |DayNames|
      invariant memory.Valid() && memory.maxDishes == old(memory.maxDishes)
      invariant (menu, memory.recentDishes) ==
        WeekMenu(old(memory.recentDishes), old(memory.maxDishes), client.State(), setup, draws, d)
    {
      ghost var st := client.State();
      ghost var b := Suggest(memory.recentDishes, memory.maxDishes, st, setup, Breakfast, draws[3 * d]);
      ghost var l := Suggest(b.1, memory.maxDishes, st, setup, Lunch, draws[3 * d + 1]);
      ghost var n := Suggest(l.1, memory.maxDishes, st, setup, Dinner, draws[3 * d + 2]);
      ghost var day := DayMenu(memory.recentDishes, memory.maxDishes, st, setup, draws, d);
      assert day == (DayEntry(DayNames[d], map[Breakfast := b.0, Lunch := l.0, Dinner := n.0]), n.1);
      var breakfast := GetRandomDish(memory, client, setup, Breakfast, draws[3 * d]);
      var lunch := GetRandomDish(memory, client, setup, Lunch, draws[3 * d + 1]);
      var dinner := GetRandomDish(memory, client, setup, Dinner, draws[3 * d + 2]);
      var entry := DayEntry(DayNames[d], map[Breakfast := breakfast, Lunch := lunch, Dinner := dinner]);
      assert (entry, memory.recentDishes) == day;
      menu := menu + [entry];
    }
  }

  const MenuHeader := "🍽️ *Меню на неделю:*\n\n"

  const BreakfastLabel := "🌅 Завтрак: "
  const LunchLabel := "☀️ Обед: "
  const DinnerLabel := "🌙 Ужин: "

  /** The line that opens a day's block, the day's name in bold. */
  function DayHeading(day: string): string
  {
    "*" + day + ":*\n"
  }

  /** One meal's line of a day's block. */
  function MealLine(tag: string, dish: string): string
  {
    tag + dish + "\n"
  }

  /** The day has all three meals, so formatting it raises no `KeyError`. */
  predicate HasMeals(e: DayEntry)
  {
    Breakfast in e.meals && Lunch in e.meals && Dinner in e.meals
  }

  /** A day's block of the message: the heading, one line per meal, then a blank line. */
  function DayText(e: DayEntry): (r: string)
    requires HasMeals(e)
    ensures |DayHeading(e.day)| < |r| && r[..|DayHeading(e.day)|] == DayHeading(e.day)
    ensures r[|r| - 1] == '\n'
  {
    DayHeading(e.day)
      + MealLine(BreakfastLabel, e.meals[Breakfast])
      + MealLine(LunchLabel, e.meals[Lunch])
      + MealLine(DinnerLabel, e.meals[Dinner]) + "\n"
  }

  /** The first `n` days of the menu have all three meals. */
  predicate MealsUpTo(menu: seq<DayEntry>, n: nat)
  {
    n <= |menu| && forall i :: 0 <= i < n ==> HasMeals(menu[i])
  }

  /** The blocks of the first `n` days, in menu order. */
  function DayTexts(menu: seq<DayEntry>, n: nat): (r: seq<string>)
    requires MealsUpTo(menu, n)
    ensures |r| == n
  {
    if n == 0 then [] else DayTexts(menu, n - 1) + [DayText(menu[n - 1])]
  }

  /** Entry `i` of the blocks is the block of day `i`. */
  lemma {:induction false} DayTextsAt(menu: seq<DayEntry>, n: nat, i: nat)
    requires MealsUpTo(menu, n) && i < n
    ensures DayTexts(menu, n)[i] == DayText(menu[i])
  {
    if i < n - 1 {
      DayTextsAt(menu, n - 1, i);
    }
  }

  /** The message after the first `n` days: the header, then their blocks. */
  function Message(menu: seq<DayEntry>, n: nat): (r: string)
    requires MealsUpTo(menu, n)
    ensures |MenuHeader| <= |r| && r[..|MenuHeader|] == MenuHeader
  {
    MenuHeader + Join(DayTexts(menu, n), "")
  }

  /** The message for a menu, or `None` when some day lacks a meal (`KeyError`). */
  function MenuText(menu: seq<DayEntry>): (r: Option<string>)
    ensures r.Some? <==> forall i :: 0 <= i < |menu| ==> HasMeals(menu[i])
    ensures r.Some? ==> r.value == Message(menu, |menu|)
  {
    if MealsUpTo(menu, |menu|) then Some(Message(menu, |menu|)) else None
  }

  /**
   * The block of day `i` starts right after the header and the blocks of the days
   * before it, so no day is dropped, repeated or moved.
   */
  lemma MessageLayout(menu: seq<DayEntry>, i: nat)
    requires MealsUpTo(menu, |menu|) && i < |menu|
    ensures Occurs(Message(menu, |menu|), |MenuHeader| + Offset(DayTexts(menu, |menu|), "", i), DayText(menu[i]))
  {
    PrefixedAt(MenuHeader, DayTexts(menu, |menu|), "", i);
    DayTextsAt(menu, |menu|, i);
  }

  /** The message opens with the header, and the last day's block ends it. */
  lemma MessageEnds(menu: seq<DayEntry>)
    requires MealsUpTo(menu, |menu|)
    ensures var t := Message(menu, |menu|);
      var texts := DayTexts(menu, |menu|);
      && t[..|MenuHeader|] == MenuHeader
      && (|menu| > 0 ==> |MenuHeader| + Offset(texts, "", |menu| - 1) + |texts[|menu| - 1]| == |t|)
  {
    var texts := DayTexts(menu, |menu|);
    if |menu| > 0 {
      JoinEnd(texts, "");
    }
  }

  /** `format_weekly_menu`: appends each day's lines to the header, in menu order. */
  method FormatWeeklyMenu(menu: seq<DayEntry>) returns (text: Option<string>)
    ensures text == MenuText(menu)
  {
    var acc := MenuHeader;
    for i := 0 to |menu|
      invariant MealsUpTo(menu, i) && acc == Message(menu, i)
    {
      var e := menu[i];
      if !HasMeals(e) {
        return None;
      }
      ghost var before := acc;
      acc := acc + DayHeading(e.day);
      acc := acc + MealLine(BreakfastLabel, e.meals[Breakfast]);
      acc := acc + MealLine(LunchLabel, e.meals[Lunch]);
      acc := acc + MealLine(DinnerLabel, e.meals[Dinner]) + "\n";
      Regroup(before, DayHeading(e.day), MealLine(BreakfastLabel, e.meals[Breakfast]),
        MealLine(LunchLabel, e.meals[Lunch]), MealLine(DinnerLabel, e.meals[Dinner]), "\n");
      ConcatPush(MenuHeader, DayTexts(menu, i), DayText(menu[i]));
    }
    return Some(acc);
  }

  /** A generated menu always formats: it never hits a missing meal. */
  lemma GeneratedMenuFormats(recent: map<string, seq<string>>, maxDishes: int, st: ClientState,
                             setup: Setup, draws: seq<Draw>)
    requires 3 * |DayNames| <= |draws| && DrawsInRange(st, draws)
    ensures MenuText(WeekMenu(recent, maxDishes, st, setup, draws, |DayNames|).0).Some?
  {
  }
}
