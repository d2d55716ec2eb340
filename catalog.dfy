/** The fixed suggestion catalog and the "London twist" list. */
module Catalog {
  import opened Selection

  datatype Option<+T> = None | Some(value: T)

  /** The three activity modes, `chill`, `adventurous` and `culture`. */
  datatype Mode = Chill | Adventurous | Culture

  /** The modes in the order the page declares them. */
  const Modes: seq<Mode> := [Chill, Adventurous, Culture]

  /** Where `m` stands in the declaration order. */
  function ModeIndex(m: Mode): (k: nat)
    ensures k < |Modes| && Modes[k] == m
  {
    match m
    case Chill => 0
    case Adventurous => 1
    case Culture => 2
  }

  /** A catalog record. Records are compared by reference, so a record is
      identified by its list and its position there: two records with the
      same title stay two different records. */
  datatype Suggestion = Suggestion(mode: Mode, index: nat)

  /** The catalog, abstracted to the length of each mode's list; the text of
      the records plays no part in the selection. */
  datatype Catalog = Catalog(chill: nat, adventurous: nat, culture: nat) {

    function Size(m: Mode): nat {
      match m
      case Chill => chill
      case Adventurous => adventurous
      case Culture => culture
    }

    /** Every mode has at least one record. */
    predicate Valid() {
      chill > 0 && adventurous > 0 && culture > 0
    }

    /** `s` is one of the catalog's records. */
    predicate Contains(s: Suggestion) {
      s.index < Size(s.mode)
    }

    /** `SUGGESTIONS[m]`: the records of mode `m`, each once, in order. */
    function ListFor(m: Mode): (r: seq<Suggestion>)
      ensures |r| == Size(m)
      ensures NoDuplicates(r)
      ensures forall s :: s in r <==> s.mode == m && Contains(s)
    {
      var r := seq(Size(m), (i: nat) => Suggestion(m, i));
      assert forall s: Suggestion :: s.mode == m && Contains(s) ==> r[s.index] == s;
      r
    }
  }

  /** The shipped catalog: 30 chill, 31 adventurous and 30 culture records. */
  const London: Catalog := Catalog(30, 31, 30)

  /** `TWISTS`. */
  const Twists: seq<string> := [
    "End with a flat white.",
    "Do it rain or shine.",
    "Avoid Oxford Circus at all costs.",
    "Take the scenic route.",
    "Bring a brolly just in case.",
    "Snap a photo for the story.",
    "Stop for pasties if it gets chilly.",
    "Mind the gap.",
    "Enjoy the city's quiet corners.",
    "London's best kept secret."
  ]

  /** `getLondonTwist`: the probabilistic draw is an oracle that either
      declines (`None`) or names a position in `Twists`. */
  function LondonTwist(roll: Option<nat>): (r: Option<string>)
    requires roll.Some? ==> roll.value < |Twists|
    ensures r.Some? <==> roll.Some?
    ensures r.Some? ==> r.value in Twists
  {
    match roll
    case None => None
    case Some(k) => Some(RandomItem(Twists, k))
  }
}
