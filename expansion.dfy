/**
 * One substitution of the leading token by its alias command, shared by both
 * generations' `_expand_aliases_in_command` (the older one calls it with no
 * names expanded so far, every time).
 */
module Expansion {
  import opened Wrappers
  import opened Text
  import opened Dicts
  import opened Aliases

  /** The alias command followed by the remaining tokens, joined by single spaces. */
  function Substitute(aliasCommand: string, rest: seq<string>): string {
    if rest != [] then aliasCommand + " " + JoinSpace(rest) else aliasCommand
  }

  /** One substitution of `_expand_aliases_in_command`: the alias name the first
      token names and the command with that token replaced, or nothing when the
      first token is not an alias, was expanded already or has an empty command. */
  function Step(command: string, store: Store, visited: set<string>): (r: Option<(string, string)>)
  {
    var parts := Words(command);
    if parts == [] then None
    else
      var first := parts[0];
      var entry := Get(store, first);
      if entry.None? || first in visited || entry.value.command == "" then None
      else Some((first, Substitute(entry.value.command, parts[1..])))
  }

  /** A substitution names a stored alias by the first token, one not expanded before. */
  lemma StepAlias(command: string, store: Store, visited: set<string>)
    requires Step(command, store, visited).Some?
    ensures var name := Step(command, store, visited).value.0;
      && name in Keys(store) && name !in visited
      && Words(command) != [] && name == Words(command)[0]
  {
  }

  /** The tokens after a substitution are the alias command's tokens followed by the remaining ones. */
  lemma StepTokens(command: string, store: Store, visited: set<string>)
    requires Step(command, store, visited).Some?
    ensures var name := Step(command, store, visited).value.0;
            Get(store, name).Some? &&
            Words(Step(command, store, visited).value.1) == Words(Get(store, name).value.command) + Words(command)[1..]
  {
    var parts := Words(command);
    var entry := Get(store, parts[0]).value;
    WordsClean(command);
    assert forall i :: 0 <= i < |parts[1..]| ==> parts[1..][i] == parts[i + 1];
    if parts[1..] != [] {
      WordsOfSpaceJoin(entry.command, parts[1..]);
    }
  }
}
