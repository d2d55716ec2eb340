/** The anti-repeat selector: filter the active list against the recent
    picks, and fall back to the whole list (with a history reset) when the
    filter leaves nothing. Generic in the record type; records are compared
    by identity, which `==` on the identity type stands for. */
module Selection {

  /** No element occurs twice. */
  predicate NoDuplicates<T(==)>(s: seq<T>) {
    forall i, j :: 0 <= i < j < |s| ==> s[i] != s[j]
  }

  /** `getRandomItem`: the random draw is an index oracle supplied by the
      caller, so every element of `a` can be the result. */
  function RandomItem<T>(a: seq<T>, choice: nat): (r: T)
    requires choice < |a|
    ensures r in a
  {
    a[choice]
  }

  /** The entries of `list` that are not among the recent picks, in list
      order (the `filter`/`includes` expression). */
  function Available<T(==)>(list: seq<T>, history: seq<T>): (r: seq<T>)
    ensures |r| <= |list|
  {
    if list == [] then []
    else if list[0] in history then Available(list[1..], history)
    else [list[0]] + Available(list[1..], history)
  }

  /** The list the random draw is made from: the filtered list, or the
      whole list when the filter leaves nothing. */
  function Candidates<T(==)>(list: seq<T>, history: seq<T>): seq<T> {
    var available := Available(list, history);
    if available == [] then list else available
  }

  /** What `getSuggestion` yields: the pick, and the history it leaves. */
  datatype Pick<T> = Pick(suggestion: T, history: seq<T>)

  /** `getSuggestion`: draw from the entries not picked recently; when every
      entry was picked recently, reset the history and draw from the whole
      list. */
  function Choose<T(==)>(list: seq<T>, history: seq<T>, choice: nat): (p: Pick<T>)
    requires choice < |Candidates(list, history)|
    ensures p.suggestion in list
    ensures (exists x :: x in list && x !in history) ==>
              p.suggestion !in history && p.history == history
    ensures (forall x :: x in list ==> x in history) ==> p.history == []
  {
    AvailableMembership(list, history);
    var available := Available(list, history);
    if available == [] then
      Pick(RandomItem(list, choice), [])
    else
      Pick(RandomItem(available, choice), history)
  }

  /** An entry survives the filter exactly when it is in the list and not
      among the recent picks. */
  lemma {:induction false} AvailableMembership<T>(list: seq<T>, history: seq<T>)
    ensures forall x :: x in Available(list, history) <==> x in list && x !in history
  {
    if list != [] {
      AvailableMembership(list[1..], history);
      assert list == [list[0]] + list[1..];
    }
  }

  /** With no recent pick in the list, the filter keeps the whole list. */
  lemma {:induction false} AvailableWhenDisjoint<T>(list: seq<T>, history: seq<T>)
    requires forall x :: x in list ==> x !in history
    ensures Available(list, history) == list
  {
    if list != [] {
      AvailableWhenDisjoint(list[1..], history);
    }
  }

  /** `s` with its first occurrence of `x` taken out. */
  function RemoveFirst<T(==)>(s: seq<T>, x: T): (r: seq<T>)
    ensures x in s ==> |r| == |s| - 1
    ensures x !in s ==> r == s
    ensures forall y :: y in s && y != x ==> y in r
  {
    if s == [] then []
    else if s[0] == x then s[1..]
    else [s[0]] + RemoveFirst(s[1..], x)
  }

  /** Counting: distinct entries that all occur in `history` are no more
      numerous than `history`. */
  lemma {:induction false} CoveredIsShorter<T>(list: seq<T>, history: seq<T>)
    requires NoDuplicates(list)
    requires forall x :: x in list ==> x in history
    ensures |list| <= |history|
  {
    if list != [] {
      var x, tail := list[0], list[1..];
      var rest := RemoveFirst(history, x);
      forall y | y in tail ensures y in rest {
        var k :| 0 <= k < |tail| && tail[k] == y;
        assert list[k + 1] == y;
      }
      assert NoDuplicates(tail) by {
        forall i, j | 0 <= i < j < |tail| ensures tail[i] != tail[j] {
          assert tail[i] == list[i + 1] && tail[j] == list[j + 1];
        }
      }
      CoveredIsShorter(tail, rest);
    }
  }

  /** A list of distinct entries longer than the history always leaves some
      entry after filtering, so the reset branch cannot run and the pick is
      not a recent one. */
  lemma AvailableNonEmpty<T>(list: seq<T>, history: seq<T>)
    requires NoDuplicates(list)
    requires |history| < |list|
    ensures Available(list, history) != []
    ensures exists x :: x in list && x !in history
  {
    AvailableMembership(list, history);
    if forall x :: x in list ==> x in history {
      CoveredIsShorter(list, history);
      assert false;
    }
  }
}
