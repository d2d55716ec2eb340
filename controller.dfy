/** The page's controller: the three `let` variables of the page script as
    fields updated in place, plus the resolutions the timer has scheduled.
    Each method is proved to perform the matching step of `Session`. */
module ActivityGenerator {
  import opened Selection
  import opened History
  import opened Catalog
  import opened Keys
  import opened Session

  class Controller {
    /** `SUGGESTIONS`, fixed when the page loads. */
    const catalog: Catalog
    /** `currentMode`. */
    var mode: Mode
    /** `lastSuggestions`, oldest first. */
    var history: seq<Suggestion>
    /** `isThinking`. */
    var thinking: bool
    /** The picks whose `setTimeout` callback has not run yet, oldest first. */
    var pending: seq<Suggestion>

    function State(): SessionState
      reads this
    {
      SessionState(mode, history, thinking, pending)
    }

    ghost predicate Valid()
      reads this
    {
      catalog.Valid() && Inv(catalog, State())
    }

    /** The page loads in `chill` mode, idle, with an empty history. */
    constructor (cat: Catalog)
      requires cat.Valid()
      ensures Valid()
      ensures catalog == cat && State() == Initial
    {
      catalog := cat;
      mode := Chill;
      history := [];
      thinking := false;
      pending := [];
    }

    /** `getSuggestion(m)`: `choice` stands for the random index into the
        list it draws from. Resets the history when every entry of the list
        was picked recently. */
    method GetSuggestion(m: Mode, choice: nat) returns (s: Suggestion)
      requires choice < |Candidates(catalog.ListFor(m), history)|
      modifies this`history
      ensures s == Choose(catalog.ListFor(m), old(history), choice).suggestion
      ensures history == Choose(catalog.ListFor(m), old(history), choice).history
    {
      var suggestions := catalog.ListFor(m);
      var available := Available(suggestions, history);
      if |available| == 0 {
        history := [];
        s := RandomItem(suggestions, choice);
        return;
      }
      s := RandomItem(available, choice);
    }

    /** `showThinking`: only its update of the busy flag. */
    method ShowThinking()
      modifies this`thinking
      ensures thinking
    {
      thinking := true;
    }

    /** `showSuggestion`: clears the busy flag and draws the twist shown
        with the record (`roll` stands for the random draws). */
    method ShowSuggestion(roll: Option<nat>) returns (twist: Option<string>)
      requires roll.Some? ==> roll.value < |Twists|
      modifies this`thinking
      ensures !thinking
      ensures twist == LondonTwist(roll)
    {
      thinking := false;
      twist := LondonTwist(roll);
    }

    /** `generateSuggestion`. */
    method Generate(choice: nat)
      requires Valid()
      requires !thinking ==> ChoiceFits(catalog, State(), choice)
      modifies this
      ensures Valid()
      ensures State() == GenerateStep(catalog, old(State()), choice)
    {
      GenerateKeepsInv(catalog, State(), choice);
      if thinking {
        return;
      }
      var s := GetSuggestion(mode, choice);
      history := history + [s];
      if |history| > MaxHistory {
        history := history[1..];
      }
      ShowThinking();
      pending := pending + [s];
    }

    /** The timer fires: the oldest scheduled pick is shown. Returns the
        record shown and its twist. */
    method Resolve(roll: Option<nat>) returns (shown: Suggestion, twist: Option<string>)
      requires Valid()
      requires pending != []
      requires roll.Some? ==> roll.value < |Twists|
      modifies this
      ensures Valid()
      ensures shown == old(pending[0])
      ensures twist == LondonTwist(roll)
      ensures State() == ResolveStep(old(State()))
    {
      shown := pending[0];
      pending := pending[1..];
      twist := ShowSuggestion(roll);
    }

    /** `switchMode(m)`: only `currentMode` changes. */
    method SwitchMode(m: Mode)
      requires Valid()
      modifies this`mode
      ensures Valid()
      ensures State() == SwitchStep(old(State()), m)
    {
      mode := m;
    }

    /** The `keydown` listener. */
    method HandleKey(key: string, choice: nat)
      requires Valid()
      requires Dispatch(key) == GenerateRequested && !thinking ==> ChoiceFits(catalog, State(), choice)
      modifies this
      ensures Valid()
      ensures State() == KeyStep(catalog, old(State()), key, choice)
    {
      match Dispatch(key)
      case GenerateRequested => Generate(choice);
      case SwitchRequested(m) => SwitchMode(m);
      case Ignored =>
    }
  }

  /** A session on the shipped catalog: trigger, trigger again while
      thinking, switch mode, then let the timer fire. */
  method Demo(first: nat, second: nat)
    requires first < London.chill
  {
    var c := new Controller(London);
    assert Candidates(London.ListFor(Chill), []) == London.ListFor(Chill) by {
      AvailableWhenDisjoint(London.ListFor(Chill), []);
    }
    c.Generate(first);
    assert c.history == [Suggestion(Chill, first)] && c.thinking;
    c.Generate(second);
    assert c.pending == [Suggestion(Chill, first)];
    c.HandleKey("3", 0);
    assert c.mode == Culture && c.thinking;
    var shown, twist := c.Resolve(None);
    assert shown == Suggestion(Chill, first) && twist == None;
    assert !c.thinking && c.history == [Suggestion(Chill, first)];
  }
}
