/**
 * Choosing the most specific alias for a command, shared by both
 * generations (`_find_most_specific_alias`): among the entries whose command
 * equals the typed command or is a prefix of it followed by a space, the one
 * with the longest command wins; the stable descending sort leaves the
 * earliest of equally long ones in front.
 */
module AliasMatch {
  import opened Wrappers
  import opened Text
  import opened Aliases

  /** `alias_command == command or command.startswith(alias_command + " ")` */
  predicate Covers(aliasCommand: string, command: string) {
    aliasCommand == command || StartsWith(command, aliasCommand + " ")
  }

  /** Entry `k` matches, no matching entry is longer, and every earlier matching entry is shorter. */
  predicate IsFirstLongest(command: string, store: Store, k: int) {
    && 0 <= k < |store|
    && Covers(store[k].1.command, command)
    && (forall j :: 0 <= j < |store| && Covers(store[j].1.command, command) ==>
          |store[j].1.command| <= |store[k].1.command|)
    && (forall j :: 0 <= j < k && Covers(store[j].1.command, command) ==>
          |store[j].1.command| < |store[k].1.command|)
  }

  /** Position of the chosen entry, scanning the store in order and
      replacing the candidate only by a strictly longer match. */
  function BestIndex(command: string, store: Store): (r: Option<nat>)
    ensures r.Some? ==> r.value < |store|
    decreases |store|
  {
    if store == [] then None
    else
      var n := |store| - 1;
      var best := BestIndex(command, store[..n]);
      if !Covers(store[n].1.command, command) then best
      else if best.None? || |store[best.value].1.command| < |store[n].1.command| then Some(n)
      else best
  }

  function MostSpecific(command: string, store: Store): Option<(string, AliasEntry)> {
    match BestIndex(command, store)
    case None => None
    case Some(k) => Some(store[k])
  }

  /** There is no choice exactly when no entry matches, and a choice is the first longest match. */
  lemma {:induction false} BestIndexCorrect(command: string, store: Store)
    ensures BestIndex(command, store).None? <==>
            forall j :: 0 <= j < |store| ==> !Covers(store[j].1.command, command)
    ensures BestIndex(command, store).Some? ==> IsFirstLongest(command, store, BestIndex(command, store).value)
    decreases |store|
  {
    if store != [] {
      var n := |store| - 1;
      var pre := store[..n];
      BestIndexCorrect(command, pre);
      assert forall j :: 0 <= j < n ==> pre[j] == store[j];
    }
  }

  /** The first longest match is unique, so the chosen entry is determined by this property. */
  lemma FirstLongestUnique(command: string, store: Store, k1: int, k2: int)
    requires IsFirstLongest(command, store, k1) && IsFirstLongest(command, store, k2)
    ensures k1 == k2
  {
  }

  /** Both directions of the selection rule, stated on entries. */
  lemma MostSpecificCorrect(command: string, store: Store)
    ensures MostSpecific(command, store).None? <==>
            forall j :: 0 <= j < |store| ==> !Covers(store[j].1.command, command)
    ensures MostSpecific(command, store).Some? ==>
            exists k :: IsFirstLongest(command, store, k) && MostSpecific(command, store).value == store[k]
  {
    BestIndexCorrect(command, store);
  }

  /** `_find_most_specific_alias`: one pass over the entries in order, keeping the
      first of the longest matches (the head of the stably sorted match list). */
  method FindMostSpecific(command: string, store: Store) returns (r: Option<(string, AliasEntry)>)
    ensures r == MostSpecific(command, store)
  {
    var best: Option<nat> := None;
    var i := 0;
    while i < |store|
      invariant 0 <= i <= |store|
      invariant best == BestIndex(command, store[..i])
    {
      assert store[..i + 1][..i] == store[..i];
      var entry := store[i].1;
      if Covers(entry.command, command) {
        if best.None? || |store[best.value].1.command| < |entry.command| {
          best := Some(i);
        }
      }
      i := i + 1;
    }
    assert store[..|store|] == store;
    if best.None? {
      r := None;
    } else {
      r := Some(store[best.value]);
    }
  }
}
