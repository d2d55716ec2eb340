/** The keyboard shortcuts: Enter and Space generate, the number keys 1, 2
    and 3 select the modes in declaration order. */
module Keys {
  import opened Catalog

  /** What a key press asks the controller to do. */
  datatype Action = GenerateRequested | SwitchRequested(mode: Mode) | Ignored

  /** The digit key bound to `m`: its 1-based place in declaration order. */
  function ModeKey(m: Mode): (k: string)
    ensures |k| == 1 && '1' <= k[0] <= '3'
  {
    [(('1' as int) + ModeIndex(m)) as char]
  }

  /** The `keydown` listener's dispatch on `e.key`. */
  function Dispatch(key: string): (a: Action)
    ensures a == GenerateRequested <==> key == "Enter" || key == " "
    ensures a.SwitchRequested? ==> key == ModeKey(a.mode)
    ensures a == Ignored <==> key !in {"Enter", " ", "1", "2", "3"}
  {
    if key == "Enter" || key == " " then GenerateRequested
    else if key == "1" then SwitchRequested(Chill)
    else if key == "2" then SwitchRequested(Adventurous)
    else if key == "3" then SwitchRequested(Culture)
    else Ignored
  }

  /** Each mode's digit key selects that mode, and only that key does. */
  lemma DispatchSelectsMode(key: string, m: Mode)
    ensures Dispatch(key) == SwitchRequested(m) <==> key == ModeKey(m)
  {
    match m
    case Chill => assert ModeKey(m) == "1";
    case Adventurous => assert ModeKey(m) == "2";
    case Culture => assert ModeKey(m) == "3";
  }
}
