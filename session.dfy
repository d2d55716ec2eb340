/** The session state machine: the active mode, the recent-history queue,
    the busy flag, and the resolutions the one-second timer has scheduled.
    Each trigger is a step function; the class in `ActivityGenerator` is
    proved to perform exactly these steps. */
module Session {
  import opened Selection
  import opened History
  import opened Catalog
  import opened Keys

  /** `currentMode`, `lastSuggestions`, `isThinking`, and the suggestions
      whose `showSuggestion` call is scheduled but has not run yet. */
  datatype SessionState = SessionState(
    mode: Mode,
    history: seq<Suggestion>,
    thinking: bool,
    pending: seq<Suggestion>)

  /** The state when the page loads. */
  const Initial: SessionState := SessionState(Chill, [], false, [])

  /** The things that can happen to a session. */
  datatype Event =
    | Trigger(choice: nat)
    | SwitchTo(mode: Mode)
    | TimerFires
    | KeyDown(key: string, choice: nat)

  /** What every reachable state satisfies. */
  predicate Inv(cat: Catalog, st: SessionState) {
    && |st.history| <= MaxHistory
    && NoDuplicates(st.history)
    && (forall s :: s in st.history ==> cat.Contains(s))
    && |st.pending| <= 1
    && (st.thinking <==> st.pending != [])
    && (forall s :: s in st.pending ==> cat.Contains(s))
  }

  /** The random index fits the list `getSuggestion` draws from. */
  predicate ChoiceFits(cat: Catalog, st: SessionState, choice: nat) {
    choice < |Candidates(cat.ListFor(st.mode), st.history)|
  }

  /** `generateSuggestion`: a no-op while thinking; otherwise pick, push the
      pick onto the history (dropping the oldest beyond `MaxHistory`), set
      the busy flag and schedule one resolution holding the pick. */
  function GenerateStep(cat: Catalog, st: SessionState, choice: nat): (r: SessionState)
    requires !st.thinking ==> ChoiceFits(cat, st, choice)
    ensures st.thinking ==> r == st
    ensures !st.thinking ==>
              && r.mode == st.mode
              && r.thinking
              && |r.pending| == |st.pending| + 1
              && r.pending[..|st.pending|] == st.pending
              && r.pending[|st.pending|] in cat.ListFor(st.mode)
              && r.history != []
              && r.history[|r.history| - 1] == r.pending[|st.pending|]
  {
    if st.thinking then st
    else
      var p := Choose(cat.ListFor(st.mode), st.history, choice);
      st.(history := Remember(p.history, p.suggestion),
          thinking := true,
          pending := st.pending + [p.suggestion])
  }

  /** The scheduled callback: `showSuggestion` on the oldest scheduled pick,
      which clears the busy flag. */
  function ResolveStep(st: SessionState): (r: SessionState)
    requires st.pending != []
    ensures !r.thinking && r.pending == st.pending[1..]
    ensures r.mode == st.mode && r.history == st.history
  {
    st.(thinking := false, pending := st.pending[1..])
  }

  /** `switchMode`: only the mode changes. */
  function SwitchStep(st: SessionState, m: Mode): (r: SessionState)
    ensures r.mode == m
    ensures r.history == st.history && r.thinking == st.thinking && r.pending == st.pending
  {
    st.(mode := m)
  }

  /** The `keydown` listener. */
  function KeyStep(cat: Catalog, st: SessionState, key: string, choice: nat): (r: SessionState)
    requires Dispatch(key) == GenerateRequested && !st.thinking ==> ChoiceFits(cat, st, choice)
    ensures Dispatch(key) == GenerateRequested ==> r == GenerateStep(cat, st, choice)
    ensures Dispatch(key).SwitchRequested? ==> r == SwitchStep(st, Dispatch(key).mode)
    ensures key != "Enter" && key != " " ==> r.history == st.history && r.thinking == st.thinking
    ensures key !in {"Enter", " ", "1", "2", "3"} ==> r == st
  {
    match Dispatch(key)
    case GenerateRequested => GenerateStep(cat, st, choice)
    case SwitchRequested(m) => SwitchStep(st, m)
    case Ignored => st
  }

  /** The event can happen in state `st`: the timer fires only when a
      resolution is scheduled, and a random index fits its list. */
  predicate Enabled(cat: Catalog, st: SessionState, e: Event) {
    match e
    case Trigger(choice) => !st.thinking ==> ChoiceFits(cat, st, choice)
    case SwitchTo(_) => true
    case TimerFires => st.pending != []
    case KeyDown(key, choice) =>
      Dispatch(key) == GenerateRequested && !st.thinking ==> ChoiceFits(cat, st, choice)
  }

  function Step(cat: Catalog, st: SessionState, e: Event): SessionState
    requires Enabled(cat, st, e)
  {
    match e
    case Trigger(choice) => GenerateStep(cat, st, choice)
    case SwitchTo(m) => SwitchStep(st, m)
    case TimerFires => ResolveStep(st)
    case KeyDown(key, choice) => KeyStep(cat, st, key, choice)
  }

  /** Every event of `events` can happen in turn from `st`. */
  predicate Runs(cat: Catalog, st: SessionState, events: seq<Event>)
    decreases |events|
  {
    events == [] ||
    (Enabled(cat, st, events[0]) && Runs(cat, Step(cat, st, events[0]), events[1..]))
  }

  /** The state after `events`. */
  function Run(cat: Catalog, st: SessionState, events: seq<Event>): SessionState
    requires Runs(cat, st, events)
    decreases |events|
  {
    if events == [] then st else Run(cat, Step(cat, st, events[0]), events[1..])
  }

  /** On a valid catalog the page can always generate: some random index
      fits, whatever the state. */
  lemma GenerateAlwaysPossible(cat: Catalog, st: SessionState)
    requires cat.Valid()
    ensures ChoiceFits(cat, st, 0)
  {
    assert cat.ListFor(st.mode) != [];
  }

  /** What a non-guarded `generateSuggestion` does to the history: with some
      entry of the mode's list not picked recently, the pick is a new one and
      the history is the old one with the pick pushed on (the oldest dropped
      when it was full); with every entry picked recently, the history is
      reset and ends up as exactly the pick. */
  lemma GenerateHistory(cat: Catalog, st: SessionState, choice: nat)
    requires Inv(cat, st) && !st.thinking && ChoiceFits(cat, st, choice)
    ensures var s := Choose(cat.ListFor(st.mode), st.history, choice).suggestion;
            var r := GenerateStep(cat, st, choice);
            && r.pending == [s]
            && ((exists x :: x in cat.ListFor(st.mode) && x !in st.history) ==>
                  && s !in st.history
                  && (|st.history| < MaxHistory ==> r.history == st.history + [s])
                  && (|st.history| == MaxHistory ==> r.history == st.history[1..] + [s]))
            && ((forall x :: x in cat.ListFor(st.mode) ==> x in st.history) ==>
                  r.history == [s])
  {
  }

  /** On a mode whose list is longer than the history bound, the reset
      branch never runs: the pick is never in the current history (the
      up-to-three picks made since the last reset), and the history only
      grows or slides. `NoRepeatOfLastThreePicks` lifts this to the last
      three picks of a whole session. */
  lemma NoRepeatOnLongList(cat: Catalog, st: SessionState, choice: nat)
    requires Inv(cat, st) && !st.thinking && ChoiceFits(cat, st, choice)
    requires cat.Size(st.mode) > MaxHistory
    ensures var p := Choose(cat.ListFor(st.mode), st.history, choice);
            && p.suggestion !in st.history
            && p.history == st.history
            && GenerateStep(cat, st, choice).history == Remember(st.history, p.suggestion)
  {
    AvailableNonEmpty(cat.ListFor(st.mode), st.history);
  }

  /** The step of `generateSuggestion` keeps the invariant: in particular the
      history stays within bound and free of repeats. */
  lemma GenerateKeepsInv(cat: Catalog, st: SessionState, choice: nat)
    requires Inv(cat, st)
    requires !st.thinking ==> ChoiceFits(cat, st, choice)
    ensures Inv(cat, GenerateStep(cat, st, choice))
  {
    if !st.thinking {
      var list := cat.ListFor(st.mode);
      var p := Choose(list, st.history, choice);
      var s := p.suggestion;
      var pushed := p.history + [s];
      assert NoDuplicates(pushed) by {
        if exists x :: x in list && x !in st.history {
          assert s !in p.history;
          forall i, j | 0 <= i < j < |pushed| ensures pushed[i] != pushed[j] {
            if j == |pushed| - 1 {
              assert pushed[i] == p.history[i];
            } else {
              assert pushed[i] == st.history[i] && pushed[j] == st.history[j];
            }
          }
        } else {
          assert p.history == [];
        }
      }
      var h := Remember(p.history, s);
      assert h == pushed || h == pushed[1..];
      forall x | x in h ensures cat.Contains(x) {
        assert x in pushed;
      }
    }
  }

  /** Every step keeps the invariant. */
  lemma StepKeepsInv(cat: Catalog, st: SessionState, e: Event)
    requires Inv(cat, st) && Enabled(cat, st, e)
    ensures Inv(cat, Step(cat, st, e))
  {
    match e
    case Trigger(choice) => GenerateKeepsInv(cat, st, choice);
    case SwitchTo(_) =>
    case TimerFires =>
    case KeyDown(key, choice) =>
      if Dispatch(key) == GenerateRequested {
        GenerateKeepsInv(cat, st, choice);
      }
  }

  /** Every state reachable from an invariant state satisfies the invariant:
      at most `MaxHistory` recent picks, none twice, all from the catalog,
      and the busy flag set exactly while one resolution is scheduled. */
  lemma {:induction false} RunKeepsInv(cat: Catalog, st: SessionState, events: seq<Event>)
    requires Inv(cat, st) && Runs(cat, st, events)
    ensures Inv(cat, Run(cat, st, events))
    decreases |events|
  {
    if events != [] {
      StepKeepsInv(cat, st, events[0]);
      RunKeepsInv(cat, Step(cat, st, events[0]), events[1..]);
    }
  }

  /** The state the page starts in satisfies the invariant. */
  lemma InitialInv(cat: Catalog)
    ensures Inv(cat, Initial)
  {
  }

  /** A second trigger while the first is still thinking is dropped: the
      state is that after the first trigger, and one resolution is
      scheduled, not two. */
  lemma SecondTriggerDropped(cat: Catalog, st: SessionState, first: nat, second: nat)
    requires Inv(cat, st) && !st.thinking && ChoiceFits(cat, st, first)
    ensures var r := GenerateStep(cat, st, first);
            GenerateStep(cat, r, second) == r && |r.pending| == 1
  {
  }

  /** Switching mode while thinking: the switch takes effect at once, the
      scheduled resolution still shows the record picked under the old mode,
      and the history picked then is kept. */
  lemma SwitchWhileThinking(cat: Catalog, st: SessionState, choice: nat, m: Mode)
    requires Inv(cat, st) && !st.thinking && ChoiceFits(cat, st, choice)
    ensures var s := Choose(cat.ListFor(st.mode), st.history, choice).suggestion;
            var picked := GenerateStep(cat, st, choice);
            var switched := SwitchStep(picked, m);
            && switched.mode == m
            && switched.thinking
            && switched.pending == [s]
            && s.mode == st.mode
            && ResolveStep(switched) == SessionState(m, picked.history, false, [])
  {
  }

  /** Every mode's list is longer than the history bound, as in `London`. */
  predicate LongLists(cat: Catalog) {
    cat.chill > MaxHistory && cat.adventurous > MaxHistory && cat.culture > MaxHistory
  }

  /** The record an event picks: one for a non-guarded generation request,
      none otherwise. */
  function StepPick(cat: Catalog, st: SessionState, e: Event): (r: seq<Suggestion>)
    requires Enabled(cat, st, e)
    ensures |r| <= 1
  {
    match e
    case Trigger(choice) =>
      if st.thinking then [] else [Choose(cat.ListFor(st.mode), st.history, choice).suggestion]
    case KeyDown(key, choice) =>
      if Dispatch(key) == GenerateRequested && !st.thinking
      then [Choose(cat.ListFor(st.mode), st.history, choice).suggestion]
      else []
    case SwitchTo(_) => []
    case TimerFires => []
  }

  /** The records picked along `events`, in order. */
  function Picks(cat: Catalog, st: SessionState, events: seq<Event>): seq<Suggestion>
    requires Runs(cat, st, events)
    decreases |events|
  {
    if events == [] then []
    else StepPick(cat, st, events[0]) + Picks(cat, Step(cat, st, events[0]), events[1..])
  }

  /** On a catalog of long lists, one step leaves as history the most recent
      entries of the old history followed by the step's pick. */
  lemma StepHistory(cat: Catalog, st: SessionState, e: Event)
    requires LongLists(cat) && Inv(cat, st) && Enabled(cat, st, e)
    ensures Step(cat, st, e).history == Recent(st.history + StepPick(cat, st, e))
  {
    var generates := match e
      case Trigger(_) => true
      case KeyDown(key, _) => Dispatch(key) == GenerateRequested
      case _ => false;
    var choice := match e
      case Trigger(c) => c
      case KeyDown(_, c) => c
      case _ => 0;
    if generates && !st.thinking {
      var s := Choose(cat.ListFor(st.mode), st.history, choice).suggestion;
      NoRepeatOnLongList(cat, st, choice);
      assert Recent(st.history) == st.history;
      RememberRecent(st.history, s);
      assert StepPick(cat, st, e) == [s];
    } else {
      assert StepPick(cat, st, e) == [];
      assert st.history + [] == st.history;
    }
  }

  /** One event of a run: the rest of the run starts from the state the
      event leaves, and its picks follow the event's own. */
  lemma RunUnfold(cat: Catalog, st: SessionState, events: seq<Event>)
    requires Runs(cat, st, events) && events != []
    ensures Enabled(cat, st, events[0])
    ensures Runs(cat, Step(cat, st, events[0]), events[1..])
    ensures Run(cat, st, events) == Run(cat, Step(cat, st, events[0]), events[1..])
    ensures Picks(cat, st, events) ==
              StepPick(cat, st, events[0]) + Picks(cat, Step(cat, st, events[0]), events[1..])
  {
  }

  /** On a catalog of long lists, the history after any run is exactly the
      most recent entries of the old history followed by every pick of the
      run: the reset never runs, so the queue holds the last three picks. */
  lemma {:induction false} RunHistory(cat: Catalog, st: SessionState, events: seq<Event>)
    requires LongLists(cat) && Inv(cat, st) && Runs(cat, st, events)
    ensures Run(cat, st, events).history == Recent(st.history + Picks(cat, st, events))
    decreases |events|
  {
    if events == [] {
      assert st.history + [] == st.history;
    } else {
      RunUnfold(cat, st, events);
      var e := events[0];
      var next := Step(cat, st, e);
      var p, rest := StepPick(cat, st, e), Picks(cat, next, events[1..]);
      var h := Run(cat, next, events[1..]).history;
      assert h == Recent(next.history + rest) by {
        StepKeepsInv(cat, st, e);
        RunHistory(cat, next, events[1..]);
      }
      assert next.history == Recent(st.history + p) by {
        StepHistory(cat, st, e);
      }
      RecentChain(st.history, p, rest);
    }
  }

  /** On a catalog of long lists, such as `London`: in every session from
      page load, a new pick is never one of the last three picks. */
  lemma NoRepeatOfLastThreePicks(cat: Catalog, events: seq<Event>, choice: nat)
    requires LongLists(cat) && Runs(cat, Initial, events)
    requires var st := Run(cat, Initial, events); !st.thinking && ChoiceFits(cat, st, choice)
    ensures var st := Run(cat, Initial, events);
            Choose(cat.ListFor(st.mode), st.history, choice).suggestion
              !in Recent(Picks(cat, Initial, events))
  {
    var st := Run(cat, Initial, events);
    InitialInv(cat);
    RunKeepsInv(cat, Initial, events);
    RunHistory(cat, Initial, events);
    assert [] + Picks(cat, Initial, events) == Picks(cat, Initial, events);
    NoRepeatOnLongList(cat, st, choice);
  }
}
