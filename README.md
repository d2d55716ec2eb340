# London activity generator: session controller

This project models the suggestion session controller of a single-page
"London activity generator" (`script.js`). The user picks a mode (`chill`,
`adventurous` or `culture`) and asks for a suggestion. The page then does four things:

- it draws a random record of that mode's list, avoiding the records in its
  recent-pick history (and resetting that history when every record of the
  list is among them);
- it pushes the pick onto a recent-history queue bounded by `MAX_HISTORY = 3`;
- it sets a busy flag, shows a "thinking" card, and schedules one
  resolution one second later, which shows the pick (sometimes with a
  "London twist") and clears the flag; requests while busy are dropped;
- mode switches (pill clicks or the keys 1/2/3) change only the active mode.
  Enter and Space request a suggestion.

Modules:

- `Selection` (selection.dfy): the filter of recently picked records, the
  random draw as an index oracle, and `getSuggestion` as the pure function
  `Choose`, which returns the pick and the history it leaves. It also holds the
  membership and counting lemmas.
- `History` (history.dfy): the push-then-shift queue and the proof that after
  any run of pushes it holds exactly the last three entries.
- `Catalog` (catalog.dfy): modes, record identities, the catalog abstracted to
  list lengths, and the twist list.
- `Keys` (keys.dfy): the `keydown` dispatch.
- `Session` (session.dfy): the session state as a value. Each trigger is a step
  function. The invariant is proved for every reachable state, and scenario
  lemmas cover a double trigger and a switch while thinking.
- `ActivityGenerator` (controller.dfy): the class `Controller`. Its fields are
  the page's `currentMode`, `lastSuggestions` and `isThinking`, plus the
  scheduled resolutions. Its methods update them in place, and each is proved
  to perform the matching `Session` step.

Records are compared by reference in the source, so a record is modelled as
`Suggestion(mode, index)`. Two records with the same title in different lists
stay distinct; `Tower of London` appears in two lists, for example. Random draws
are parameters: `choice` is the index `Math.floor(Math.random() * length)`
would produce, and `roll` is the outcome of the twist draw (`None` for no
twist). The one-second `setTimeout` is the `pending` field plus the `Resolve`
method, which can run only while a resolution is scheduled.

Behaviour of the code worth noting, which the model keeps:

- The reset branch runs only when every record of the active list is in the
  history. It does not run on every call merely because a list has three or fewer
  records. For example, with a three-record list and a one-entry history the
  filter leaves two candidates.
- The header comment promises 30 suggestions per mode, but the `adventurous`
  list has 31. The shipped catalog `Catalog.London` has sizes 30, 31 and 30,
  and nothing else depends on the sizes.
- The history is not cleared on a mode switch, so it can hold records of
  another mode. The invariant therefore says only that history entries belong
  to the catalog.
- A reset in a mode with three or fewer records wipes the earlier picks. After
  switching back, one of the last three picks can be picked again. The
  guarantee that a pick is never one of the last three picks is therefore
  proved only for catalogs whose lists all have more than three records, as
  the shipped catalog's lists do.

## Model

| member | source | states |
|---|---|---|
| Selection.RandomItem | script.js:722-724 | the random item is an element of the array it is drawn from |
| Selection.Available | script.js:729 | the filtered list is no longer than the mode's list |
| Selection.AvailableMembership | script.js:729 | a record survives the filter exactly when it is in the mode's list and not in the recent history (both directions) |
| Selection.AvailableWhenDisjoint | script.js:729 | when no recent pick belongs to the list (an empty history, say) the filter keeps the whole list, in order |
| Selection.Choose | script.js:727-737 | the pick always belongs to the mode's list; if some entry of the list is not in the history, the pick is not in the history and the history is left unchanged; if every entry is in the history, the history is reset to empty |
| Selection.CoveredIsShorter | script.js:729-733 | distinct records that all occur in the history are no more numerous than the history (the counting step behind the reset condition) |
| Selection.AvailableNonEmpty | script.js:729-736 | a list of distinct records longer than the history always leaves a candidate after filtering, so the reset branch cannot run |
| History.Remember | script.js:822-826 | push then shift: the new entry is last; from a queue of at most 3 the result has at most 3 entries; exactly the oldest entry is dropped when the push made it 4 long, and the order of the rest is kept |
| History.RememberRecent | script.js:822-826 | pushing onto the most recent three entries gives the most recent three entries of the extended sequence |
| History.RememberAllIsRecent | script.js:821-826 | from a queue within capacity, any run of pushes leaves exactly the last 3 entries of old queue plus picks; after the fourth pick the first is gone |
| Catalog.Catalog.ListFor | script.js:55-699 | a mode's list holds each record of that mode exactly once and nothing else |
| Catalog.LondonTwist | script.js:761-763 | the twist is absent exactly when the draw declines, and otherwise is one of the ten twists |
| Keys.Dispatch | script.js:862-873 | Enter or Space requests generation and nothing else does; a mode switch comes only from that mode's digit key; every other key is ignored |
| Keys.DispatchSelectsMode | script.js:866-871 | keys 1, 2 and 3 select `chill`, `adventurous` and `culture`, the modes in declaration order, and a mode is selected by its key and no other |
| Session.GenerateStep | script.js:818-833 | while thinking, `generateSuggestion` changes nothing; otherwise the mode is kept, the flag is set, exactly one resolution is scheduled holding a record of the active mode's list, and that record ends the history |
| Session.ResolveStep | script.js:785-786 | the resolution clears the busy flag and removes exactly the oldest scheduled entry; mode and history are untouched |
| Session.SwitchStep | script.js:836-837 | `switchMode` sets the mode; history, busy flag and scheduled resolution are unchanged |
| Session.KeyStep | script.js:862-873 | a key that requests generation performs the generation step, a key that selects a mode performs the switch to that mode; keys other than Enter and Space leave history and busy flag alone; keys other than Enter, Space, 1, 2, 3 change nothing |
| Session.GenerateAlwaysPossible | script.js:722-724 | on a catalog with non-empty lists some random index always fits the list drawn from |
| Session.GenerateHistory | script.js:821-826 | with some entry not picked recently the pick is new and the history is the old one plus the pick (the oldest dropped when full); with every entry picked recently the history ends as exactly the pick; exactly one resolution is pending |
| Session.NoRepeatOnLongList | script.js:727-737 | on a list longer than 3 the pick is never in the current history (the up-to-three picks since the last reset) and the history is not reset |
| Session.StepPick | script.js:819-821 | an event picks at most one record: only a generation request made while idle picks |
| Session.StepHistory | script.js:821-826 | on a catalog whose lists all exceed 3 records, one event leaves as history the last three entries of the old history followed by the event's pick |
| Session.RunHistory | script.js:818-873 | on such a catalog, after any sequence of events the history is exactly the last three entries of the old history followed by every pick made, in order: no reset ever runs |
| Session.NoRepeatOfLastThreePicks | script.js:727-737 | on such a catalog (the shipped one is), in every session from page load a new pick is never one of the last three picks made |
| Session.GenerateKeepsInv | script.js:818-826 | generation keeps the history within 3 entries, free of repeats and inside the catalog, with the busy flag set exactly while one resolution is pending |
| Session.StepKeepsInv | script.js:818-873 | every trigger, timer firing, mode switch and key press keeps that invariant |
| Session.RunKeepsInv | script.js:704-873 | every state reachable from an invariant state by any sequence of events satisfies the invariant |
| Session.InitialInv | script.js:704-706 | the page's initial state satisfies the invariant |
| Session.SecondTriggerDropped | script.js:819 | a second trigger while the first is thinking leaves the state as the first left it, with a single resolution pending |
| Session.SwitchWhileThinking | script.js:830-837 | a mode switch while thinking takes effect at once, and the pending resolution still shows the record picked under the previous mode, keeping the history picked then |
| ActivityGenerator.Controller.constructor | script.js:704-706 | the page starts in `chill` mode, idle, with an empty history and nothing scheduled |
| ActivityGenerator.Controller.GetSuggestion | script.js:727-737 | the in-place `getSuggestion` returns the pick of `Choose` and leaves the history `Choose` describes (reset or unchanged) |
| ActivityGenerator.Controller.ShowThinking | script.js:766-767 | sets the busy flag |
| ActivityGenerator.Controller.ShowSuggestion | script.js:785-788 | clears the busy flag and returns the twist of the draw |
| ActivityGenerator.Controller.Generate | script.js:818-833 | performs `Session.GenerateStep` in place and keeps the invariant |
| ActivityGenerator.Controller.Resolve | script.js:830-832 | shows exactly the scheduled pick, performs `Session.ResolveStep` and keeps the invariant |
| ActivityGenerator.Controller.SwitchMode | script.js:836-837 | performs `Session.SwitchStep`, touching only the mode |
| ActivityGenerator.Controller.HandleKey | script.js:862-873 | performs `Session.KeyStep` and keeps the invariant |

## Left out

- Rendering: the `innerHTML` templates, `classList` changes, the active-pill loop in `switchMode`, element lookups and listener registration. Button and pill clicks call `Generate` and `SwitchMode` directly.
- The thinking message drawn in `showThinking`: it only picks display text.
- `createConfetti`: cosmetic, driven by floating-point randomness and self-removing timers.
- Probabilities: `Math.random`, `TWIST_CHANCE = 0.3` and the uniformity of draws. Every draw is an oracle parameter, so the model covers every outcome but says nothing about how often each one happens.
- Wall-clock time: `THINKING_DURATION_MS` is not modelled. Only the order "pick, then one later resolution" is.
- The text of the catalog records (titles, descriptions, durations, energy, map links). They play no part in selection.
- Mode values other than the three modes. Pill clicks pass the pill's `data-mode` attribute; the page markup is not part of this model. Keys pass only the three modes.
- An empty mode list. In the source `getRandomItem` would return `undefined` and rendering would fail. The model requires every list to be non-empty (`Catalog.Valid`), and no random index fits an empty list.
- `e.preventDefault()` for Enter and Space, and the `console.log` greeting.
