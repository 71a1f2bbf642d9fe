/**
 * The bounded per-meal history of recently suggested dishes (`DishMemory`).
 * The dictionary `recent_dishes` is the field `recentDishes`; the pure readers
 * are stated once over its value, so that the dish service can use them too.
 */
module MemoryManager {
  import opened Wrappers
  import opened Strings

  const Breakfast := "завтрак"
  const Lunch := "обед"
  const Dinner := "ужин"

  /** The keys of `recent_dishes`, in the dictionary's insertion order. */
  const Categories: seq<string> := [Breakfast, Lunch, Dinner]

  const DefaultMaxDishes := 5

  const AvoidPrefix := "НЕ предлагай эти блюда (уже были недавно): "

  /** How many names a category keeps; a negative `max_dishes` keeps none. */
  function Capacity(maxDishes: int): nat
  {
    if maxDishes < 0 then 0 else maxDishes
  }

  /** The last `Capacity(maxDishes)` elements of `s`, in order: the sliding window. */
  function LastN(s: seq<string>, maxDishes: int): (r: seq<string>)
    ensures |r| == if |s| <= Capacity(maxDishes) then |s| else Capacity(maxDishes)
    ensures forall i :: 0 <= i < |r| ==> r[i] == s[|s| - |r| + i]
  {
    if |s| <= Capacity(maxDishes) then s else s[|s| - Capacity(maxDishes)..]
  }

  /**
   * Windowing again after one more name is the window of the whole history with that
   * name: the memory never needs more than its window to stay exact.
   */
  lemma {:induction false} LastNPush(h: seq<string>, d: string, maxDishes: int)
    ensures LastN(LastN(h, maxDishes) + [d], maxDishes) == LastN(h + [d], maxDishes)
  {
    var n := Capacity(maxDishes);
    var w := LastN(h, maxDishes);
    if |h| > n {
      assert w == h[|h| - n..];
      var a := w + [d];
      assert |a| == n + 1;
      assert LastN(a, maxDishes) == a[1..];
      assert (h + [d])[|h| + 1 - n..] == a[1..];
    }
  }

  /** `get_recent_dishes` on the dictionary's value: the stored list, or `[]` for an unknown key. */
  function Recent(recent: map<string, seq<string>>, mealType: string): seq<string>
  {
    if mealType in recent then recent[mealType] else []
  }

  /** `get_avoid_list_text` on the dictionary's value. */
  function AvoidText(recent: map<string, seq<string>>, mealType: string): (r: string)
    ensures r == "" <==> Recent(recent, mealType) == []
    ensures Recent(recent, mealType) != [] ==>
      r == AvoidPrefix + Join(Recent(recent, mealType), ", ") + "."
  {
    var names := Recent(recent, mealType);
    if names != [] then AvoidPrefix + Join(names, ", ") + "." else ""
  }

  /**
   * Every remembered name, duplicates included, appears in the avoid clause in stored
   * order, right after the fixed prefix: name `i` starts where the names before it
   * and their separators end.
   */
  lemma AvoidTextNames(recent: map<string, seq<string>>, mealType: string, i: nat)
    requires i < |Recent(recent, mealType)|
    ensures var names := Recent(recent, mealType);
      var at := |AvoidPrefix| + Offset(names, ", ", i);
      var t := AvoidText(recent, mealType);
      at + |names[i]| <= |t| && t[at..at + |names[i]|] == names[i]
  {
    FramedAt(AvoidPrefix, Recent(recent, mealType), ", ", ".", i);
  }

  /** Each remembered name but the last is followed by ", ". */
  lemma AvoidTextSeparators(recent: map<string, seq<string>>, mealType: string, i: nat)
    requires i + 1 < |Recent(recent, mealType)|
    ensures var names := Recent(recent, mealType);
      var end := |AvoidPrefix| + Offset(names, ", ", i) + |names[i]|;
      var t := AvoidText(recent, mealType);
      end + |", "| <= |t| && t[end..end + |", "|] == ", "
  {
    FramedGap(AvoidPrefix, Recent(recent, mealType), ", ", ".", i);
  }

  /** The last remembered name closes the clause with ".". */
  lemma AvoidTextEnd(recent: map<string, seq<string>>, mealType: string)
    requires Recent(recent, mealType) != []
    ensures var names := Recent(recent, mealType);
      var end := |AvoidPrefix| + Offset(names, ", ", |names| - 1) + |names[|names| - 1]|;
      var t := AvoidText(recent, mealType);
      end <= |t| && t[end..] == "."
  {
    FramedEnd(AvoidPrefix, Recent(recent, mealType), ", ", ".");
  }

  /** `add_dish` on the dictionary's value. */
  function Added(recent: map<string, seq<string>>, maxDishes: int, mealType: string, dishName: string)
    : (r: map<string, seq<string>>)
    ensures r.Keys == recent.Keys
    ensures forall c :: c in recent && c != mealType ==> r[c] == recent[c]
    ensures mealType in recent ==> r[mealType] == LastN(recent[mealType] + [dishName], maxDishes)
    ensures mealType !in recent ==> r == recent
  {
    if mealType in recent then recent[mealType := LastN(recent[mealType] + [dishName], maxDishes)]
    else recent
  }

  /** A run of `add_dish` calls on one category, in order; no other category changes. */
  function AddedAll(recent: map<string, seq<string>>, maxDishes: int, mealType: string, dishNames: seq<string>)
    : (r: map<string, seq<string>>)
    ensures r.Keys == recent.Keys
    ensures forall c :: c in recent && c != mealType ==> r[c] == recent[c]
  {
    if dishNames == [] then recent
    else Added(AddedAll(recent, maxDishes, mealType, dishNames[..|dishNames| - 1]), maxDishes, mealType, dishNames[|dishNames| - 1])
  }

  /**
   * The sliding window: after any run of additions to a category that started empty,
   * it holds exactly the last `max_dishes` names added, oldest first.
   */
  lemma {:induction false} AddedAllIsWindow(recent: map<string, seq<string>>, maxDishes: int, mealType: string, dishNames: seq<string>)
    requires mealType in recent && recent[mealType] == []
    ensures AddedAll(recent, maxDishes, mealType, dishNames)[mealType] == LastN(dishNames, maxDishes)
  {
    if dishNames != [] {
      var front := dishNames[..|dishNames| - 1];
      var last := dishNames[|dishNames| - 1];
      var before := AddedAll(recent, maxDishes, mealType, front);
      assert before[mealType] == LastN(front, maxDishes) by {
        AddedAllIsWindow(recent, maxDishes, mealType, front);
      }
      assert AddedAll(recent, maxDishes, mealType, dishNames)[mealType] == LastN(before[mealType] + [last], maxDishes);
      LastNPush(front, last, maxDishes);
      assert front + [last] == dishNames;
    }
  }

  /** `clear_old` on the dictionary's value; `None` clears every category. */
  function Cleared(recent: map<string, seq<string>>, mealType: Option<string>): (r: map<string, seq<string>>)
    ensures r.Keys == recent.Keys
    ensures mealType.None? ==> forall c :: c in r ==> r[c] == []
    ensures mealType.Some? && mealType.value != "" && mealType.value in recent ==>
      r[mealType.value] == [] && forall c :: c in recent && c != mealType.value ==> r[c] == recent[c]
    ensures mealType.Some? && (mealType.value == "" || mealType.value !in recent) ==> r == recent
  {
    match mealType
    case None => map c | c in recent :: []
    case Some(m) => if m != "" && m in recent then recent[m := []] else recent
  }

  class DishMemory {
    var maxDishes: int
    var recentDishes: map<string, seq<string>>
    /** Every name added to each category since it was last cleared. */
    ghost var added: map<string, seq<string>>

    /** Exactly the three categories, each holding the window of its history. */
    ghost predicate Valid()
      reads this
    {
      && recentDishes.Keys == {Breakfast, Lunch, Dinner}
      && added.Keys == recentDishes.Keys
      && Windowed(Breakfast) && Windowed(Lunch) && Windowed(Dinner)
    }

    /** The category holds the last `max_dishes` names of its history. */
    ghost predicate Windowed(c: string)
      reads this
      requires c in recentDishes && c in added
    {
      recentDishes[c] == LastN(added[c], maxDishes)
    }

    /** A known category holds the window of its history. */
    lemma WindowOf(c: string)
      requires Valid() && c in recentDishes
      ensures c in added && recentDishes[c] == LastN(added[c], maxDishes)
    {
    }

    /** `DishMemory()`: the default capacity of five. */
    constructor Default()
      ensures Valid()
      ensures maxDishes == DefaultMaxDishes
      ensures recentDishes == map[Breakfast := [], Lunch := [], Dinner := []]
    {
      maxDishes := DefaultMaxDishes;
      recentDishes := map[Breakfast := [], Lunch := [], Dinner := []];
      added := map[Breakfast := [], Lunch := [], Dinner := []];
    }

    /** `DishMemory(max_dishes)`. */
    constructor (maxDishes: int)
      ensures Valid()
      ensures this.maxDishes == maxDishes
      ensures recentDishes == map[Breakfast := [], Lunch := [], Dinner := []]
    {
      this.maxDishes := maxDishes;
      recentDishes := map[Breakfast := [], Lunch := [], Dinner := []];
      added := map[Breakfast := [], Lunch := [], Dinner := []];
    }

    /**
     * Appends to a known category and drops its oldest entry once over capacity;
     * an unknown category changes nothing.
     */
    method AddDish(mealType: string, dishName: string)
      requires Valid()
      modifies this
      ensures Valid()
      ensures maxDishes == old(maxDishes)
      ensures recentDishes == Added(old(recentDishes), maxDishes, mealType, dishName)
      ensures added == if mealType in old(added) then old(added)[mealType := old(added)[mealType] + [dishName]]
                       else old(added)
    {
      if mealType in recentDishes {
        WindowOf(mealType);
        var dishes := recentDishes[mealType] + [dishName];
        if |dishes| > maxDishes {
          dishes := dishes[1..];
        }
        ghost var history := added[mealType] + [dishName];
        assert dishes == LastN(history, maxDishes) by {
          assert dishes == LastN(recentDishes[mealType] + [dishName], maxDishes);
          LastNPush(added[mealType], dishName, maxDishes);
        }
        recentDishes := recentDishes[mealType := dishes];
        added := added[mealType := history];
      }
    }

    /** The stored list for a category, or `[]` for an unknown one. */
    function GetRecentDishes(mealType: string): (r: seq<string>)
      reads this
      requires Valid()
      ensures |r| <= Capacity(maxDishes)
      ensures mealType in Categories ==> r == LastN(added[mealType], maxDishes)
      ensures mealType !in Categories ==> r == []
    {
      Recent(recentDishes, mealType)
    }

    /** The "avoid these" clause for the prompt; empty when there is no history. */
    function GetAvoidListText(mealType: string): (r: string)
      reads this
      requires Valid()
      ensures r == "" <==> GetRecentDishes(mealType) == []
      ensures r == AvoidText(recentDishes, mealType)
    {
      AvoidText(recentDishes, mealType)
    }

    /** Empties one known category, or every category when given `None`. */
    method ClearOld(mealType: Option<string>)
      requires Valid()
      modifies this
      ensures Valid()
      ensures maxDishes == old(maxDishes)
      ensures recentDishes == Cleared(old(recentDishes), mealType)
      ensures added == Cleared(old(added), mealType)
    {
      if mealType.Some? && mealType.value != "" && mealType.value in recentDishes {
        recentDishes := recentDishes[mealType.value := []];
        added := added[mealType.value := []];
      } else if mealType.None? {
        var pending := recentDishes.Keys;
        while pending != {}
          invariant pending <= recentDishes.Keys
          invariant recentDishes.Keys == old(recentDishes).Keys
          invariant added == old(added) && maxDishes == old(maxDishes)
          invariant forall c :: c in recentDishes ==> recentDishes[c] == if c in pending then old(recentDishes)[c] else []
          decreases pending
        {
          var c :| c in pending;
          recentDishes := recentDishes[c := []];
          pending := pending - {c};
        }
        assert recentDishes == Cleared(old(recentDishes), mealType);
        added := recentDishes;
        assert LastN([], maxDishes) == [];
      }
    }
  }
}
