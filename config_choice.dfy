/**
 * `find_existing_config`, which both installers share: the first file of the
 * shell's list that exists, else the first file of the list, else none.
 * Which files exist is given as a set of paths.
 */
module ConfigChoice {
  import opened Wrappers

  /** The first listed file that exists. */
  function FirstExisting(files: seq<string>, existing: set<string>): Option<string> {
    if files == [] then None
    else if files[0] in existing then Some(files[0])
    else FirstExisting(files[1..], existing)
  }

  /** The file `find_existing_config` returns. */
  function Choose(files: seq<string>, existing: set<string>): Option<string> {
    match FirstExisting(files, existing)
    case Some(f) => Some(f)
    case None => if files == [] then None else Some(files[0])
  }

  /** The first existing file is found exactly when some listed file exists, and it is
      the earliest one. */
  lemma {:induction false} FirstExistingSpec(files: seq<string>, existing: set<string>)
    ensures FirstExisting(files, existing).Some? <==> exists i :: 0 <= i < |files| && files[i] in existing
    ensures FirstExisting(files, existing).Some? ==>
      exists i :: 0 <= i < |files| && files[i] == FirstExisting(files, existing).value && files[i] in existing
        && forall k :: 0 <= k < i ==> files[k] !in existing
  {
    if files != [] && files[0] !in existing {
      var rest := files[1..];
      FirstExistingSpec(rest, existing);
      if exists i :: 0 <= i < |files| && files[i] in existing {
        var i :| 0 <= i < |files| && files[i] in existing;
        assert rest[i - 1] == files[i];
      }
      if FirstExisting(rest, existing).Some? {
        var i :| 0 <= i < |rest| && rest[i] == FirstExisting(rest, existing).value && rest[i] in existing
          && forall k :: 0 <= k < i ==> rest[k] !in existing;
        assert files[i + 1] == rest[i];
        forall k | 0 <= k < i + 1
          ensures files[k] !in existing
        {
          if k > 0 {
            assert files[k] == rest[k - 1];
          }
        }
      }
    }
  }

  /** The choice: none only for an empty list; otherwise a listed file, the earliest one
      that exists if any does, and the first one when none does. */
  lemma ChooseSpec(files: seq<string>, existing: set<string>)
    ensures Choose(files, existing).None? <==> files == []
    ensures Choose(files, existing).Some? ==> Choose(files, existing).value in files
    ensures (exists i :: 0 <= i < |files| && files[i] in existing) ==>
      exists i :: 0 <= i < |files| && files[i] == Choose(files, existing).value && files[i] in existing
        && forall k :: 0 <= k < i ==> files[k] !in existing
    ensures files != [] && (forall i :: 0 <= i < |files| ==> files[i] !in existing) ==>
      Choose(files, existing) == Some(files[0])
  {
    FirstExistingSpec(files, existing);
  }

  /** Creating the chosen file does not change the choice. */
  lemma ChooseStable(files: seq<string>, existing: set<string>, c: string)
    requires Choose(files, existing) == Some(c)
    ensures Choose(files, existing + {c}) == Some(c)
  {
    var more := existing + {c};
    FirstExistingSpec(files, existing);
    FirstExistingSpec(files, more);
    if FirstExisting(files, existing).Some? {
      var i :| 0 <= i < |files| && files[i] == c && files[i] in existing
        && forall k :: 0 <= k < i ==> files[k] !in existing;
      var j :| 0 <= j < |files| && files[j] == FirstExisting(files, more).value && files[j] in more
        && forall k :: 0 <= k < j ==> files[k] !in more;
      assert j <= i;
    } else {
      assert files[0] == c && files[0] in more;
    }
  }

  /** The same file listed twice in a row is the same as listed once. */
  lemma ChooseRepeat(f: string, rest: seq<string>, existing: set<string>)
    ensures Choose([f, f] + rest, existing) == Choose([f] + rest, existing)
  {
    assert ([f, f] + rest)[1..] == [f] + rest;
  }

  /** The search loop of `find_existing_config`. */
  method FindExisting(files: seq<string>, existing: set<string>) returns (r: Option<string>)
    ensures r == Choose(files, existing)
  {
    var i := 0;
    while i < |files|
      invariant 0 <= i <= |files|
      invariant FirstExisting(files, existing) == FirstExisting(files[i..], existing)
    {
      if files[i] in existing {
        return Some(files[i]);
      }
      assert files[i..][1..] == files[i + 1..];
      i := i + 1;
    }
    if files == [] {
      return None;
    }
    return Some(files[0]);
  }
}
