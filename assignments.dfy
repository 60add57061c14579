/**
 * Filling an alias dictionary from parsed definitions, as both generations'
 * parsers do: each definition `(name, command)` is assigned in order with
 * `aliases[name] = {command, shell, source_file, 'alias'}`, so a later
 * definition of a name replaces an earlier one in place.
 */
module Assignments {
  import opened Wrappers
  import opened Dicts
  import opened Aliases
  import opened AliasSyntax

  /** Every entry of a parse result belongs to the given shell and file, is an
      alias, and has a well-formed name and command. */
  predicate ParsedFrom(pat: Pattern, r: Store, shell: string, path: string) {
    forall p :: p in r ==>
      && p.1 == AliasEntry(p.1.command, shell, path, Alias)
      && ValidNameFor(pat, p.0) && ValidCommand(p.1.command)
  }

  /** Every definition has a well-formed name and command. */
  predicate WellFormed(pat: Pattern, defs: seq<Option<(string, string)>>) {
    forall j :: 0 <= j < |defs| && defs[j].Some? ==> ValidNameFor(pat, defs[j].value.0) && ValidCommand(defs[j].value.1)
  }

  /** The dictionary filled by assigning the definitions one after the other. */
  function Assign(defs: seq<Option<(string, string)>>, shell: string, path: string): (r: Store)
    ensures UniqueKeys(r)
    decreases |defs|
  {
    if defs == [] then []
    else
      var n := |defs| - 1;
      var acc := Assign(defs[..n], shell, path);
      match defs[n]
      case None => acc
      case Some(def) =>
        var e := AliasEntry(def.1, shell, path, Alias);
        PutUnique(acc, def.0, e);
        Put(acc, def.0, e)
  }

  /** Assigning one more definition puts its entry over what the earlier ones left. */
  lemma AssignNext(defs: seq<Option<(string, string)>>, shell: string, path: string, i: nat)
    requires i < |defs|
    ensures Assign(defs[..i + 1], shell, path) ==
      match defs[i]
      case None => Assign(defs[..i], shell, path)
      case Some(def) => Put(Assign(defs[..i], shell, path), def.0, AliasEntry(def.1, shell, path, Alias))
  {
    assert defs[..i + 1][..i] == defs[..i];
  }

  /** Assigning well-formed definitions yields entries of the given shell and file. */
  lemma {:induction false} AssignParsedFrom(pat: Pattern, defs: seq<Option<(string, string)>>, shell: string, path: string)
    requires WellFormed(pat, defs)
    ensures ParsedFrom(pat, Assign(defs, shell, path), shell, path)
    decreases |defs|
  {
    if defs != [] {
      var n := |defs| - 1;
      assert WellFormed(pat, defs[..n]);
      AssignParsedFrom(pat, defs[..n], shell, path);
    }
  }

  /** A definition of a name overwrites any earlier definition of it; anything
      else leaves the entry of that name as it was. */
  lemma AssignSnoc(defs: seq<Option<(string, string)>>, shell: string, path: string, name: string)
    requires defs != []
    ensures var last := defs[|defs| - 1];
            Get(Assign(defs, shell, path), name) ==
              if last.Some? && last.value.0 == name then Some(AliasEntry(last.value.1, shell, path, Alias))
              else Get(Assign(defs[..|defs| - 1], shell, path), name)
  {
    var acc := Assign(defs[..|defs| - 1], shell, path);
    match defs[|defs| - 1] {
      case None =>
      case Some(def) =>
        GetPut(acc, def.0, AliasEntry(def.1, shell, path, Alias), name);
    }
  }

  /** The entry for a name comes from the last definition of it. */
  lemma {:induction false} AssignLast(defs: seq<Option<(string, string)>>, shell: string, path: string, k: nat, name: string, cmd: string)
    requires k < |defs| && defs[k] == Some((name, cmd))
    requires forall j :: k < j < |defs| ==> defs[j].None? || defs[j].value.0 != name
    ensures Get(Assign(defs, shell, path), name) == Some(AliasEntry(cmd, shell, path, Alias))
    decreases |defs|
  {
    var n := |defs| - 1;
    AssignSnoc(defs, shell, path, name);
    if k < n {
      var pre := defs[..n];
      assert defs[n].None? || defs[n].value.0 != name;
      assert pre[k] == defs[k];
      forall j | k < j < n
        ensures pre[j].None? || pre[j].value.0 != name
      {
        assert pre[j] == defs[j];
      }
      AssignLast(pre, shell, path, k, name, cmd);
    }
  }

  /** A name nothing defines has no entry. */
  lemma {:induction false} AssignAbsent(defs: seq<Option<(string, string)>>, shell: string, path: string, name: string)
    requires forall j :: 0 <= j < |defs| ==> defs[j].None? || defs[j].value.0 != name
    ensures Get(Assign(defs, shell, path), name).None?
    decreases |defs|
  {
    if defs != [] {
      var pre := defs[..|defs| - 1];
      assert forall j :: 0 <= j < |pre| ==> pre[j] == defs[j];
      AssignAbsent(pre, shell, path, name);
      AssignSnoc(defs, shell, path, name);
    }
  }

  /** A single definition yields a dictionary of that one entry. */
  lemma AssignSingle(name: string, cmd: string, shell: string, path: string)
    ensures Assign([Some((name, cmd))], shell, path) == [(name, AliasEntry(cmd, shell, path, Alias))]
  {
    assert [Some((name, cmd))][..0] == [];
  }
}
