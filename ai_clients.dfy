/**
 * The multi-provider completion client (`MultiAIClient`): which providers are
 * registered, in what order they are tried, and the single fail-over pass.
 * A provider's network call is an opaque `Outcome`: the trimmed answer text, or a
 * failure standing for any exception it raised.
 */
module AiClients {
  import opened Wrappers
  import opened Strings

  /** The dish returned when no provider gives a usable answer. */
  const FallbackDish := "Омлет с овощами"

  /** The policy that picks the primary provider at random on each call. */
  const Mixed := "mixed"

  datatype ProviderKind = DeepSeek | OpenAI

  /** The key a provider is registered under in `clients`. */
  function RegistryKey(k: ProviderKind): string
  {
    match k
    case DeepSeek => "deepseek"
    case OpenAI => "openai"
  }

  /** `get_provider_name()` of each provider client. */
  function ProviderName(k: ProviderKind): string
  {
    match k
    case DeepSeek => "DeepSeek"
    case OpenAI => "OpenAI"
  }

  /** What one provider's `get_completion` did: returned a text, or raised. */
  datatype Outcome = Answer(text: string) | Failure

  /** The providers' behaviour for one call: outcome by registered name and prompt. */
  type Responder = (string, string) -> Outcome

  /** `result and result.strip()`: the answer is worth returning. */
  predicate Usable(o: Outcome)
    ensures Usable(o) ==> o.Answer? && o.text != ""
  {
    o.Answer? && !Blank(o.text)
  }

  predicate Distinct(names: seq<string>)
  {
    forall i, j :: 0 <= i < j < |names| ==> names[i] != names[j]
  }

  /** `list(self.clients.keys())`. */
  function Keys(clients: seq<ProviderKind>): (r: seq<string>)
    ensures |r| == |clients|
    ensures forall i :: 0 <= i < |clients| ==> r[i] == RegistryKey(clients[i])
  {
    seq(|clients|, i requires 0 <= i < |clients| => RegistryKey(clients[i]))
  }

  /** The client registered under `name` (`self.clients[name]`). */
  function KindNamed(clients: seq<ProviderKind>, name: string): (k: ProviderKind)
    requires name in Keys(clients)
    ensures k in clients && RegistryKey(k) == name
  {
    if RegistryKey(clients[0]) == name then clients[0]
    else
      assert Keys(clients[1..]) == Keys(clients)[1..];
      KindNamed(clients[1..], name)
  }

  /** `[c for c in names if c != name]`. */
  function Without(names: seq<string>, name: string): (r: seq<string>)
    ensures |r| <= |names| && name !in r
    ensures forall n :: n in r ==> n in names
  {
    if names == [] then []
    else if names[0] == name then Without(names[1..], name)
    else [names[0]] + Without(names[1..], name)
  }

  /**
   * Filtering keeps every other name and drops `name`, keeps distinct names distinct,
   * and on a distinct list headed by `name` is just the tail.
   */
  lemma {:induction false} WithoutSpec(names: seq<string>, name: string)
    ensures forall n :: n in Without(names, name) <==> n in names && n != name
    ensures Distinct(names) ==> Distinct(Without(names, name))
    ensures Distinct(names) && |names| > 0 && names[0] == name ==> Without(names, name) == names[1..]
    ensures name !in names ==> Without(names, name) == names
  {
    if names != [] {
      var tail := names[1..];
      WithoutSpec(tail, name);
      if Distinct(names) {
        assert Distinct(tail) by {
          forall i, j | 0 <= i < j < |tail| ensures tail[i] != tail[j] {
            assert tail[i] == names[i + 1] && tail[j] == names[j + 1];
          }
        }
        if names[0] == name {
          assert name !in tail by {
            forall i | 0 <= i < |tail| ensures tail[i] != name {
              assert tail[i] == names[i + 1];
            }
          }
          WithoutSpec(tail, name);
        } else {
          var w := Without(tail, name);
          assert names[0] !in w by {
            forall i | 0 <= i < |tail| ensures tail[i] != names[0] {
              assert tail[i] == names[i + 1];
            }
          }
          assert Distinct([names[0]] + w) by {
            forall i, j | 0 <= i < j < |w| + 1 ensures ([names[0]] + w)[i] != ([names[0]] + w)[j] {
              if i > 0 {
                assert ([names[0]] + w)[i] == w[i - 1];
              }
            }
          }
        }
      }
      if name !in names {
        assert names == [names[0]] + tail;
      }
    }
  }

  /**
   * The fail-over pass from position `j` of `order`: the answer returned and the
   * providers called, in call order.
   */
  function AttemptFrom(order: seq<string>, j: nat, prompt: string, respond: Responder): (r: (string, seq<string>))
    requires j <= |order|
    ensures j + |r.1| <= |order| && (j < |order| ==> |r.1| > 0)
    decreases |order| - j
  {
    if j == |order| then (FallbackDish, [])
    else
      var o := respond(order[j], prompt);
      if Usable(o) then (o.text, [order[j]])
      else
        var rest := AttemptFrom(order, j + 1, prompt, respond);
        (rest.0, [order[j]] + rest.1)
  }

  /** One fail-over pass over the whole of `order`. */
  function Attempt(order: seq<string>, prompt: string, respond: Responder): (r: (string, seq<string>))
    ensures |r.1| <= |order|
  {
    AttemptFrom(order, 0, prompt, respond)
  }

  /**
   * From position `j`, the providers called are the next ones of `order`, in order, and a
   * pass that stops before the end stops at a usable answer, which it returns.
   */
  lemma {:induction false} AttemptFromCallsPrefix(order: seq<string>, j: nat, prompt: string, respond: Responder)
    requires j <= |order|
    ensures var r := AttemptFrom(order, j, prompt, respond);
      && r.1 == order[j..j + |r.1|]
      && (j + |r.1| < |order| ==>
            var last := respond(order[j + |r.1| - 1], prompt);
            Usable(last) && r.0 == last.text)
    decreases |order| - j
  {
    if j < |order| && !Usable(respond(order[j], prompt)) {
      AttemptFromCallsPrefix(order, j + 1, prompt, respond);
      var rest := AttemptFrom(order, j + 1, prompt, respond);
      assert order[j..j + 1 + |rest.1|] == [order[j]] + order[j + 1..j + 1 + |rest.1|];
    }
  }

  /** From position `j`, the first usable answer at `k` is returned and nothing after `k` is called. */
  lemma {:induction false} AttemptFromStops(order: seq<string>, j: nat, prompt: string, respond: Responder, k: nat)
    requires j <= k < |order| && Usable(respond(order[k], prompt))
    requires forall i :: j <= i < k ==> !Usable(respond(order[i], prompt))
    ensures AttemptFrom(order, j, prompt, respond) == (respond(order[k], prompt).text, order[j..k + 1])
    decreases k - j
  {
    if j == k {
      assert order[j..k + 1] == [order[k]];
    } else {
      AttemptFromStops(order, j + 1, prompt, respond, k);
      assert [order[j]] + order[j + 1..k + 1] == order[j..k + 1];
    }
  }

  /** From position `j`, when nothing answers usably, everything is called and the fallback dish comes back. */
  lemma {:induction false} AttemptFromExhausted(order: seq<string>, j: nat, prompt: string, respond: Responder)
    requires j <= |order|
    requires forall i :: j <= i < |order| ==> !Usable(respond(order[i], prompt))
    ensures AttemptFrom(order, j, prompt, respond) == (FallbackDish, order[j..])
    decreases |order| - j
  {
    if j < |order| {
      AttemptFromExhausted(order, j + 1, prompt, respond);
      assert [order[j]] + order[j + 1..] == order[j..];
    }
  }

  /** The pass never hands back a blank answer. */
  lemma {:induction false} AttemptFromNeverBlank(order: seq<string>, j: nat, prompt: string, respond: Responder)
    requires j <= |order|
    ensures !Blank(AttemptFrom(order, j, prompt, respond).0)
    decreases |order| - j
  {
    if j == |order| {
      assert !IsSpace(FallbackDish[0]);
    } else if !Usable(respond(order[j], prompt)) {
      AttemptFromNeverBlank(order, j + 1, prompt, respond);
    }
  }

  /** Short-circuit: the first usable answer in `order` is returned, and nothing after it is called. */
  lemma AttemptStopsAtFirstAnswer(order: seq<string>, prompt: string, respond: Responder, k: nat)
    requires k < |order| && Usable(respond(order[k], prompt))
    requires forall i :: 0 <= i < k ==> !Usable(respond(order[i], prompt))
    ensures Attempt(order, prompt, respond) == (respond(order[k], prompt).text, order[..k + 1])
  {
    AttemptFromStops(order, 0, prompt, respond, k);
  }

  /** Exhaustion: when nothing answers usably, every provider was called once and the fallback dish comes back. */
  lemma AttemptExhausted(order: seq<string>, prompt: string, respond: Responder)
    requires forall i :: 0 <= i < |order| ==> !Usable(respond(order[i], prompt))
    ensures Attempt(order, prompt, respond) == (FallbackDish, order)
  {
    AttemptFromExhausted(order, 0, prompt, respond);
    assert order[0..] == order;
  }

  /** The pass depends on the providers only through their answers to this prompt. */
  lemma {:induction false} AttemptDependsOnPrompt(order: seq<string>, j: nat, prompt: string, r1: Responder, r2: Responder)
    requires j <= |order|
    requires forall n :: n in order ==> r1(n, prompt) == r2(n, prompt)
    ensures AttemptFrom(order, j, prompt, r1) == AttemptFrom(order, j, prompt, r2)
    decreases |order| - j
  {
    if j < |order| {
      AttemptDependsOnPrompt(order, j + 1, prompt, r1, r2);
    }
  }

  /** The part of a `MultiAIClient` that decides the fail-over: its three attributes. */
  datatype ClientState = ClientState(clients: seq<ProviderKind>, fallbackClients: seq<string>, provider: string)

  /** `fallback_clients` lists the keys of `clients`, in the same order, each once. */
  ghost predicate WellFormed(st: ClientState)
  {
    st.fallbackClients == Keys(st.clients) && Distinct(st.fallbackClients)
  }

  /** The `mixed` policy with nothing registered: `random.choice([])` raises. */
  predicate ChoosesFromEmpty(st: ClientState)
  {
    st.provider == Mixed && |st.clients| == 0
  }

  /** The index standing for `random.choice` picks one of the registered clients. */
  predicate ChoiceInRange(st: ClientState, choice: nat)
  {
    st.provider == Mixed && |st.clients| > 0 ==> choice < |st.clients|
  }

  /** The provider tried first, or `None` when nothing is registered. */
  function Primary(st: ClientState, choice: nat): (r: Option<string>)
    requires ChoiceInRange(st, choice) && !ChoosesFromEmpty(st)
    ensures r.None? <==> st.provider != Mixed && st.provider !in Keys(st.clients) && st.fallbackClients == []
    ensures st.provider == Mixed ==> r.Some? && r.value in Keys(st.clients)
  {
    if st.provider == Mixed then Some(Keys(st.clients)[choice])
    else if st.provider in Keys(st.clients) then Some(st.provider)
    else if |st.fallbackClients| > 0 then Some(st.fallbackClients[0])
    else None
  }

  /** The providers tried after the primary. */
  function FallbackOrder(st: ClientState, choice: nat): (r: seq<string>)
    requires ChoiceInRange(st, choice) && !ChoosesFromEmpty(st)
    ensures |r| <= |st.fallbackClients|
    ensures forall n :: n in r ==> n in st.fallbackClients
  {
    if st.provider == Mixed then Without(st.fallbackClients, Keys(st.clients)[choice])
    else if st.provider in Keys(st.clients) then Without(st.fallbackClients, st.provider)
    else if |st.fallbackClients| > 1 then st.fallbackClients[1..]
    else []
  }

  /** Every provider in the order it may be called. */
  function TryOrder(st: ClientState, choice: nat): (r: seq<string>)
    requires ChoiceInRange(st, choice) && !ChoosesFromEmpty(st)
    ensures r == [] <==> Primary(st, choice).None?
    ensures r != [] ==> r[0] == Primary(st, choice).value && |r| <= |st.fallbackClients| + 1
  {
    match Primary(st, choice)
    case None => []
    case Some(p) => [p] + FallbackOrder(st, choice)
  }

  /**
   * The order is a permutation of the registered names: each provider is called at
   * most once, the primary first and never again, and on exhaustion all were tried.
   */
  lemma TryOrderIsRegistration(st: ClientState, choice: nat)
    requires WellFormed(st) && ChoiceInRange(st, choice) && !ChoosesFromEmpty(st)
    ensures Distinct(TryOrder(st, choice))
    ensures forall n :: n in TryOrder(st, choice) <==> n in st.fallbackClients
    ensures |TryOrder(st, choice)| == |st.fallbackClients|
    ensures Primary(st, choice).Some? <==> |st.fallbackClients| > 0
    ensures Primary(st, choice).Some? ==> TryOrder(st, choice)[0] == Primary(st, choice).value
    ensures st.provider != Mixed && st.provider in st.fallbackClients ==> Primary(st, choice) == Some(st.provider)
    ensures st.provider != Mixed && st.provider !in st.fallbackClients ==> TryOrder(st, choice) == st.fallbackClients
  {
    match Primary(st, choice)
    case None =>
    case Some(p) =>
      assert p in st.fallbackClients;
      if st.provider != Mixed && st.provider !in Keys(st.clients) {
        assert TryOrder(st, choice) == st.fallbackClients;
      } else {
        assert FallbackOrder(st, choice) == Without(st.fallbackClients, p);
        PrimaryFirst(st.fallbackClients, p);
      }
  }

  /**
   * A distinct list of names with `p` moved to the front and filtered out of the rest
   * is a distinct list of the same names.
   */
  lemma PrimaryFirst(names: seq<string>, p: string)
    requires Distinct(names) && p in names
    ensures Distinct([p] + Without(names, p))
    ensures forall n :: n in [p] + Without(names, p) <==> n in names
    ensures |[p] + Without(names, p)| == |names|
  {
    WithoutSpec(names, p);
    var others := Without(names, p);
    var order := [p] + others;
    assert Distinct(order) by {
      forall i, j | 0 <= i < j < |order| ensures order[i] != order[j] {
        assert order[j] == others[j - 1];
      }
    }
    assert forall n :: n in order <==> n == p || n in others;
    DistinctSameLength(order, names);
  }

  /** The result of `get_completion`: raises only when `mixed` has nothing to choose from. */
  function Completion(st: ClientState, prompt: string, respond: Responder, choice: nat): (r: Result<string>)
    requires ChoiceInRange(st, choice)
    ensures r.Raised? <==> ChoosesFromEmpty(st)
    ensures r.Ok? ==> !Blank(r.value)
  {
    if ChoosesFromEmpty(st) then Raised(EmptyChoice)
    else
      AttemptFromNeverBlank(TryOrder(st, choice), 0, prompt, respond);
      Ok(Attempt(TryOrder(st, choice), prompt, respond).0)
  }

  class MultiAIClient {
    /** `self.clients`: the registered providers, in registration order. */
    var clients: seq<ProviderKind>
    /** `self.fallback_clients`: the registered names, in registration order. */
    var fallbackClients: seq<string>
    /** `self.provider`: the configured policy, lower-cased. */
    var provider: string

    function State(): ClientState
      reads this
    {
      ClientState(clients, fallbackClients, provider)
    }

    ghost predicate Valid()
      reads this
    {
      WellFormed(State())
    }

    /**
     * Registers DeepSeek and then OpenAI, each only when its key is truthy, and
     * stores the policy lower-cased.
     */
    constructor (openaiKey: Option<string>, deepseekKey: Option<string>, provider: string)
      ensures Valid()
      ensures clients == (if Truthy(deepseekKey) then [DeepSeek] else []) + (if Truthy(openaiKey) then [OpenAI] else [])
      ensures this.provider == Lower(provider)
    {
      clients := [];
      fallbackClients := [];
      if Truthy(deepseekKey) {
        clients := clients + [DeepSeek];
        fallbackClients := fallbackClients + [RegistryKey(DeepSeek)];
      }
      if Truthy(openaiKey) {
        clients := clients + [OpenAI];
        fallbackClients := fallbackClients + [RegistryKey(OpenAI)];
      }
      this.provider := Lower(provider);
    }

    /**
     * Calls the primary, then each fallback provider in order, returning the first
     * non-blank answer; any failure or blank answer moves on to the next provider.
     * `attempted` lists the providers called, in call order.
     */
    method GetCompletion(prompt: string, respond: Responder, choice: nat) returns (r: Result<string>, attempted: seq<string>)
      requires ChoiceInRange(State(), choice)
      ensures r == Completion(State(), prompt, respond, choice)
      ensures attempted == if r.Raised? then [] else Attempt(TryOrder(State(), choice), prompt, respond).1
    {
      if provider == Mixed && |clients| == 0 {
        return Raised(EmptyChoice), [];
      }
      var primary := Primary(State(), choice);
      var fallbackOrder := FallbackOrder(State(), choice);
      if primary.None? {
        return Ok(FallbackDish), [];
      }
      ghost var order := TryOrder(State(), choice);
      assert order == [primary.value] + fallbackOrder;
      attempted := [primary.value];
      var result := respond(primary.value, prompt);
      if Usable(result) {
        return Ok(result.text), attempted;
      }
      for i := 0 to |fallbackOrder|
        invariant Attempt(order, prompt, respond).0 == AttemptFrom(order, i + 1, prompt, respond).0
        invariant Attempt(order, prompt, respond).1 == attempted + AttemptFrom(order, i + 1, prompt, respond).1
      {
        assert order[i + 1] == fallbackOrder[i];
        ghost var before := attempted;
        attempted := attempted + [fallbackOrder[i]];
        result := respond(fallbackOrder[i], prompt);
        if Usable(result) {
          return Ok(result.text), attempted;
        }
        ghost var rest := AttemptFrom(order, i + 2, prompt, respond);
        assert AttemptFrom(order, i + 1, prompt, respond) == (rest.0, [order[i + 1]] + rest.1);
        assert before + ([order[i + 1]] + rest.1) == attempted + rest.1;
      }
      return Ok(FallbackDish), attempted;
    }

    /** `get_active_provider()`: a description of the configured policy. */
    function GetActiveProvider(): (r: string)
      reads this
      ensures r == "Unknown" <==> provider != Mixed && provider !in Keys(clients)
    {
      if provider == Mixed then
        var r := "Mixed (" + Join(Keys(clients), ", ") + ")";
        assert r[0] == 'M';
        r
      else if provider in Keys(clients) then ProviderName(KindNamed(clients, provider))
      else "Unknown"
    }

    /**
     * Under a policy naming a registered provider, the provider reported as active is
     * the one every call tries first.
     */
    lemma ActiveProviderIsPrimary(choice: nat)
      requires Valid() && ChoiceInRange(State(), choice)
      requires provider != Mixed && provider in fallbackClients
      ensures !ChoosesFromEmpty(State()) && Primary(State(), choice) == Some(provider)
      ensures TryOrder(State(), choice)[0] == provider
      ensures GetActiveProvider() == ProviderName(KindNamed(clients, provider))
    {
    }
  }

  /** A distinct list holding exactly the names of another distinct list is as long. */
  lemma {:induction false} DistinctSameLength(a: seq<string>, b: seq<string>)
    requires Distinct(a) && Distinct(b)
    requires forall n :: n in a <==> n in b
    ensures |a| == |b|
  {
    var sa := set i | 0 <= i < |a| :: a[i];
    var sb := set i | 0 <= i < |b| :: b[i];
    forall n ensures n in sa <==> n in b {
      if n in sa {
        var i :| 0 <= i < |a| && a[i] == n;
        assert n in a;
      }
      if n in b {
        assert n in a;
        var i :| 0 <= i < |a| && a[i] == n;
      }
    }
    forall n ensures n in sb <==> n in b {
      if n in b {
        var i :| 0 <= i < |b| && b[i] == n;
      }
    }
    assert sa == sb;
    DistinctCard(a);
    DistinctCard(b);
  }

  lemma {:induction false} DistinctCard(a: seq<string>)
    requires Distinct(a)
    ensures |set i | 0 <= i < |a| :: a[i]| == |a|
  {
    if a != [] {
      var tail := a[1..];
      assert Distinct(tail) by {
        forall i, j | 0 <= i < j < |tail| ensures tail[i] != tail[j] {
          assert tail[i] == a[i + 1] && tail[j] == a[j + 1];
        }
      }
      DistinctCard(tail);
      var st := set i | 0 <= i < |tail| :: tail[i];
      assert (set i | 0 <= i < |a| :: a[i]) == {a[0]} + st;
      assert a[0] !in st;
    }
  }
}
