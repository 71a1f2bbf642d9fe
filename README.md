# Recipe bot core in Dafny

A model of the three pieces of the recipe-suggestion bot that hold logic, with their
properties proved:

- **`DishMemory`** (`memory_manager.dfy`, module `MemoryManager`) keeps, for each of the
  meal types `завтрак`, `обед` and `ужин`, a bounded FIFO of recently suggested dishes.
  It renders them as the "avoid these" clause of the prompt.
  - The class keeps the dictionary `recent_dishes` as the field `recentDishes`.
  - A ghost history `added` records every name added since the last clear. The class
    invariant says that each category holds the last `max_dishes` names of its history.
  - The pure readers (`Recent`, `AvoidText`, `Added`, `Cleared`) are stated once over the
    dictionary's value, so the dish service can use them in its specifications.
- **`MultiAIClient`** (`ai_clients.dfy`, module `AiClients`) registers the providers and
  fixes the order in which they are tried. Each call makes a single fail-over pass.
  - The three attributes `clients`, `fallback_clients` and `provider` are class fields.
  - The order and the pass are pure functions of the value `ClientState` of those fields.
  - A provider call is an opaque `Outcome` (an answer text or a failure), given by a
    `Responder`.
  - `random.choice` is an index `choice`.
  - `get_completion` is a method whose loop is proved to compute `Completion`. It also
    reports the providers it called, in call order.
- **The dish service** (`ai_helper.dfy`, module `AiHelper`): `get_random_dish`,
  `generate_weekly_menu` and `format_weekly_menu`.
  - The memory and the client are passed in explicitly.
  - The environment key, the configured key and the prompt builder are a `Setup` value.
  - What the providers answer and what `random.choice` picks are a `Draw` per suggestion.
  - Each method is proved equal to a function on values: `Suggest`, `WeekMenu` and `MenuText`.
  - The lemmas beside those functions state the service's guarantees.

`strings.dfy` (module `Strings`) holds the few `str` operations used, and
`wrappers.dfy` the `Option` and `Result` types. Python's `random.choice([])` raising
`IndexError` is `Raised(EmptyChoice)`. A `KeyError` in `format_weekly_menu` is `None`.

## Model

| member | source | states |
|---|---|---|
| Strings.Lower | ai_clients.py:105 | lower-casing keeps the length and maps each character to its lower-case form |
| Strings.Blank | ai_clients.py:134 | the empty answer counts as blank, as `not "".strip()` is true; the other blank answers are those made only of `str.isspace` characters |
| Strings.JoinAt | memory_manager.py:36 | element `i` of `sep.join(xs)` stands at its offset: after the elements before it and one separator after each |
| Strings.JoinGap | memory_manager.py:36 | exactly one separator stands between two neighbouring elements |
| Strings.JoinEnd | memory_manager.py:36 | the last element closes the joined text |
| MemoryManager.LastN | memory_manager.py:15-18 | the window holds `min(len, max_dishes)` names, and they are the last ones of the history, oldest first |
| MemoryManager.LastNPush | memory_manager.py:15-18 | appending and then dropping the oldest to fit gives the window of the whole history, so the stored list never needs more than itself to stay exact |
| MemoryManager.AvoidText | memory_manager.py:32-37 | the clause is empty exactly when the category has no names or is unknown; otherwise it is the fixed prefix, the names joined by ", ", then "." |
| MemoryManager.AvoidTextNames | memory_manager.py:34-36 | every stored name, duplicates included, appears in the clause in stored order, right after the prefix and the earlier names and separators |
| MemoryManager.AvoidTextSeparators | memory_manager.py:36 | every stored name but the last is followed by ", " |
| MemoryManager.AvoidTextEnd | memory_manager.py:36 | the last stored name is followed by "." and nothing else |
| MemoryManager.Added | memory_manager.py:12-18 | adding to a known category changes only that category, to the window of its list plus the new name; an unknown category changes nothing |
| MemoryManager.AddedAll | memory_manager.py:12-18 | any run of additions to one category keeps the keys and leaves every other category as it was |
| MemoryManager.AddedAllIsWindow | memory_manager.py:12-18 | after any run of additions to a category that started empty, it holds exactly the last `max_dishes` names added, in insertion order |
| MemoryManager.Cleared | memory_manager.py:24-30 | `None` empties every category; a known category is emptied alone; an empty or unknown name changes nothing; the keys never change |
| MemoryManager.DishMemory.Default | memory_manager.py:4-10 | a fresh memory has exactly the three empty categories and a capacity of 5 |
| MemoryManager.DishMemory.constructor | memory_manager.py:4-10 | a memory with a given capacity starts with exactly the three empty categories |
| MemoryManager.DishMemory.AddDish | memory_manager.py:12-18 | the new dictionary is `Added` of the old one and the capacity is unchanged; the invariant (each category is the window of its history) is kept |
| MemoryManager.DishMemory.GetRecentDishes | memory_manager.py:20-22 | a known category gives the last `max_dishes` names added to it, an unknown one `[]`; the length never exceeds the capacity |
| MemoryManager.DishMemory.GetAvoidListText | memory_manager.py:32-37 | the clause is empty exactly when `get_recent_dishes` is empty, and it is `AvoidText` of the stored dictionary |
| MemoryManager.DishMemory.ClearOld | memory_manager.py:24-30 | the loop over the categories leaves the dictionary equal to `Cleared` of the old one, and the invariant is kept |
| AiClients.Keys | ai_clients.py:115 | the list of keys has one registry name per registered client, in registration order |
| AiClients.KindNamed | ai_clients.py:159 | the client looked up under a registered name is registered under that name |
| AiClients.Usable | ai_clients.py:134 | a usable result is an answer, not a failure, and is not empty |
| AiClients.Without | ai_clients.py:116 | the filter never lengthens the list, drops every copy of the primary and keeps only names of the list |
| AiClients.WithoutSpec | ai_clients.py:116-120 | the fallback filter keeps exactly the other names, keeps distinct names distinct, and on a distinct list headed by the primary is just the tail |
| AiClients.Primary | ai_clients.py:113-128 | there is no primary exactly when the policy is neither `mixed` nor registered and `fallback_clients` is empty; under `mixed` the primary is one of the registered keys |
| AiClients.FallbackOrder | ai_clients.py:113-124 | the fallback order is no longer than `fallback_clients` and holds only its names |
| AiClients.TryOrder | ai_clients.py:126-140 | nothing is tried exactly when there is no primary; otherwise the primary is tried first, and at most one more provider than `fallback_clients` holds is tried in all |
| AiClients.PrimaryFirst | ai_clients.py:116-120 | the primary followed by the filtered list is a permutation of a distinct list that holds it |
| AiClients.AttemptFrom | ai_clients.py:130-152 | from position `j` the pass calls no more than the remaining providers, and at least one when any remains |
| AiClients.Attempt | ai_clients.py:130-152 | a pass calls at most one provider per entry of the order |
| AiClients.AttemptFromCallsPrefix | ai_clients.py:130-146 | the providers called are the next ones of the order, in order, and a pass that stops before the end stops at a usable answer and returns it |
| AiClients.AttemptFromStops | ai_clients.py:130-146 | from any position, the first usable answer is returned and the providers after it are not called |
| AiClients.AttemptFromExhausted | ai_clients.py:139-152 | from any position, when nothing answers usably every remaining provider is called once and the default dish is returned |
| AiClients.AttemptFromNeverBlank | ai_clients.py:134-152 | the pass never returns a blank answer |
| AiClients.AttemptStopsAtFirstAnswer | ai_clients.py:130-146 | the first usable answer in the try order is returned unchanged, and nothing after it is called |
| AiClients.AttemptExhausted | ai_clients.py:139-152 | when every provider fails or answers blank, each was called exactly once, in order, and "Омлет с овощами" is returned |
| AiClients.AttemptDependsOnPrompt | ai_clients.py:130-148 | the pass depends on the providers only through their answers to this prompt |
| AiClients.TryOrderIsRegistration | ai_clients.py:112-124 | the try order is a permutation of the registered names: the primary comes first and is never retried; a registered policy is tried first; an unregistered non-`mixed` policy tries the registration order |
| AiClients.Completion | ai_clients.py:109-152 | the call raises exactly under `mixed` with no registered clients, and otherwise returns a non-blank answer |
| AiClients.MultiAIClient.constructor | ai_clients.py:91-105 | DeepSeek is registered before OpenAI, each only for a truthy key; the key list and `fallback_clients` agree; the policy is lower-cased |
| AiClients.MultiAIClient.GetCompletion | ai_clients.py:109-152 | the primary-then-fallback loop returns `Completion` and calls exactly the providers of the pass, in order |
| AiClients.MultiAIClient.GetActiveProvider | ai_clients.py:154-161 | "Unknown" exactly when the policy is neither `mixed` nor registered |
| AiClients.MultiAIClient.ActiveProviderIsPrimary | ai_clients.py:117-119 | under a registered policy, the provider reported as active is the one every call tries first |
| AiHelper.ApiKey | ai_helper.py:36 | a key is set exactly when the environment or the configuration sets one, and the environment's wins |
| AiHelper.KeyConfigured | ai_helper.py:36-37 | the key check passes only when the environment or the configuration sets a key; a key set in the environment alone decides, and passes unless it is the placeholder |
| AiHelper.PromptFor | ai_helper.py:32-44 | the prompt is built from the avoid clause read before the call, and for an empty category the builder receives an empty clause |
| AiHelper.Suggest | ai_helper.py:28-71 | the dish is never empty, and the memory is either unchanged or has exactly that dish added under the meal type |
| AiHelper.SuggestFallsBack | ai_helper.py:36-39 | without a usable key, or when the client raises, the default dish comes back and the memory is unchanged |
| AiHelper.SuggestRecordsAnswer | ai_helper.py:57-66 | otherwise the client's answer is never blank, is returned unchanged, and is recorded under the meal type |
| AiHelper.GetRandomDish | ai_helper.py:28-71 | reads the avoid clause before any update; the dish and the new memory are `Suggest` of the old memory; the memory invariant is kept |
| AiHelper.ExhaustionDefaultIsRecorded | ai_helper.py:58-63 | when every provider fails, the client's default dish is not empty, so it is recorded in the memory like any answer |
| AiHelper.FirstAnswerIsRecorded | ai_helper.py:47-66 | the first provider in the try order that answers usably decides the dish, which is recorded |
| AiHelper.SuggestDependsOnlyOnPrompt | ai_helper.py:44-53 | the providers see only the prompt: the same answers to it give the same dish and the same memory |
| AiHelper.DayMenu | ai_helper.py:79-83 | a day is named and has exactly breakfast, lunch and dinner, each non-empty; the memory keeps its categories |
| AiHelper.WeekMenu | ai_helper.py:73-85 | the menu has one entry per day, Monday to Sunday in order, each with exactly the three meal types and a non-empty dish for each |
| AiHelper.GenerateWeeklyMenu | ai_helper.py:73-85 | the 21 suggestions go day by day, breakfast then lunch then dinner, each seeing the memory the previous one left: the result is `WeekMenu` of the old memory |
| AiHelper.DayText | ai_helper.py:92-95 | a day's block opens with the day's heading and ends with a newline |
| AiHelper.DayTexts | ai_helper.py:91-95 | there is one block per day |
| AiHelper.DayTextsAt | ai_helper.py:92-95 | block `i` of the message is the heading and meal lines of day `i` |
| AiHelper.MessageLayout | ai_helper.py:89-97 | day `i`'s block stands right after the header and the blocks of the days before it, so no day is dropped, repeated or moved |
| AiHelper.MessageEnds | ai_helper.py:89-97 | the message opens with the header, and the last day's block ends it |
| AiHelper.Message | ai_helper.py:89-97 | the message opens with the header |
| AiHelper.MenuText | ai_helper.py:87-97 | a text is produced exactly when every day has all three meals, and it is then the message for the whole menu |
| AiHelper.FormatWeeklyMenu | ai_helper.py:87-97 | the accumulated text is the header and every day's block, or `None` when a day lacks a meal |
| AiHelper.GeneratedMenuFormats | ai_helper.py:79-95 | a generated menu always formats, since it never lacks a meal |

## Left out

- `OpenAIClient` and `DeepSeekClient` (ai_clients.py:20-86) are network calls. Each is an opaque `Outcome`: a failure, or an answer text of any form. The text need not be stripped, and every lemma holds for any text. `get_provider_name` is a constant.
- The `max_tokens`, `temperature` and `top_p` arguments only pass through, so they are left out.
- All logging is left out.
- `random.choice` is a caller-supplied index. It must be in range when the choice is made.
- `Setup` stands for the `os.getenv` read and the configured keys. The startup fallback client (ai_helper.py:14-26) and `config.py` are not part of this model.
- The prompt builder is an uninterpreted function of the meal type and the avoid clause. `prompt_variations.py` is not part of this model.
- `Strings.Lower`: lower-cases ASCII letters only. Python's `str.lower` also folds other scripts.
- `AiHelper.WeekMenu`: the menu dictionary is a sequence of `DayEntry` in insertion order. `format_weekly_menu` accepts any such sequence, including one with a repeated day.
- `AiHelper.GenerateWeeklyMenu`: each suggestion's provider answers and pick come from `draws[3 * d + j]`, which must hold at least 21 entries.
- The global `dish_memory` singleton and the module-level `client` are explicit parameters.
- An exception from the prompt builder escapes `get_random_dish` and is not modelled.
- `bot.py`, the Telegram interface, is not part of this model.
