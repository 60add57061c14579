/**
 * The alias store: alias name -> {command, shell, source_file, type}, in the
 * order the dictionary holds its entries.
 */
module Aliases {
  import opened Dicts

  /** The `type` field: a shell alias, or a fish function treated as one. */
  datatype Kind = Alias | Function

  /** One stored alias. A `command` of "" stands for an entry without one
      (the source reads it with `.get('command', '')`). */
  datatype AliasEntry = AliasEntry(command: string, shell: string, sourceFile: string, kind: Kind)

  type Store = Dict<AliasEntry>

  /** Depth bound of both generations' expansion (`max_depth=10`). */
  const MaxDepth: nat := 10
}
