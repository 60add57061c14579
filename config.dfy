/**
 * The newer generation's settings store (`lazysloth/core/config.py`): a tree
 * of nested dictionaries addressed by dot-separated keys such as
 * `monitoring.enabled`.
 */
module SlothConfig {
  import opened Wrappers
  import opened Text
  import opened Dicts

  /** A YAML value as the store holds it. */
  datatype Value =
    | Map(entries: Dict<Value>)
    | Str(s: string)
    | Int(i: int)
    | Bool(b: bool)
    | List(items: seq<Value>)
    | Null

  /** The value at the end of a key path, when every segment is present in a dictionary. */
  function Reach(v: Value, keys: seq<string>): Option<Value>
    decreases |keys|
  {
    if keys == [] then Some(v)
    else if v.Map? && Get(v.entries, keys[0]).Some? then Reach(Get(v.entries, keys[0]).value, keys[1..])
    else None
  }

  /** `get(key, default)` on the segments: `default` as soon as a segment is
      missing or the value reached is not a dictionary. */
  function Lookup(v: Value, keys: seq<string>, default: Value): Value {
    match Reach(v, keys)
    case None => default
    case Some(w) => w
  }

  /** The value under `k`, or a new empty dictionary when `k` is absent. */
  function ChildOrEmpty(d: Dict<Value>, k: string): Value {
    match Get(d, k)
    case None => Map([])
    case Some(c) => c
  }

  /** The tree after assigning `x` at the key path: missing dictionaries on the
      way are created; a value on the way that is not a dictionary makes the
      assignment fail (Python raises `TypeError` there). */
  function SetPath(v: Value, keys: seq<string>, x: Value): Option<Value>
    requires |keys| >= 1
    decreases |keys|
  {
    if !v.Map? then None
    else if |keys| == 1 then Some(Map(Put(v.entries, keys[0], x)))
    else
      match SetPath(ChildOrEmpty(v.entries, keys[0]), keys[1..], x)
      case None => None
      case Some(c) => Some(Map(Put(v.entries, keys[0], c)))
  }

  /** A value read back after it was assigned is the value assigned. */
  lemma {:induction false} SetThenLookup(v: Value, keys: seq<string>, x: Value, default: Value)
    requires |keys| >= 1 && SetPath(v, keys, x).Some?
    ensures Reach(SetPath(v, keys, x).value, keys) == Some(x)
    ensures Lookup(SetPath(v, keys, x).value, keys, default) == x
    decreases |keys|
  {
    var w := SetPath(v, keys, x).value;
    if |keys| == 1 {
      GetPut(v.entries, keys[0], x, keys[0]);
    } else {
      var c := SetPath(ChildOrEmpty(v.entries, keys[0]), keys[1..], x).value;
      GetPut(v.entries, keys[0], c, keys[0]);
      SetThenLookup(ChildOrEmpty(v.entries, keys[0]), keys[1..], x, default);
    }
  }

  /** Two key paths that part somewhere: neither is a prefix of the other. */
  predicate Diverge(a: seq<string>, b: seq<string>) {
    exists i :: 0 <= i < |a| && i < |b| && a[i] != b[i]
  }

  /** An assignment leaves every path that parts from the assigned one as it was. */
  lemma {:induction false} SetKeepsSiblings(v: Value, keys: seq<string>, x: Value, other: seq<string>, default: Value)
    requires |keys| >= 1 && SetPath(v, keys, x).Some? && Diverge(keys, other)
    ensures Lookup(SetPath(v, keys, x).value, other, default) == Lookup(v, other, default)
    decreases |keys|
  {
    var i :| 0 <= i < |keys| && i < |other| && keys[i] != other[i];
    var w := SetPath(v, keys, x).value;
    var c := if |keys| == 1 then x else SetPath(ChildOrEmpty(v.entries, keys[0]), keys[1..], x).value;
    assert w == Map(Put(v.entries, keys[0], c));
    LookupStep(v, other, default);
    LookupStep(w, other, default);
    if keys[0] != other[0] {
      GetPut(v.entries, keys[0], c, other[0]);
    } else {
      assert i > 0 && |keys| > 1;
      var child := ChildOrEmpty(v.entries, keys[0]);
      GetPut(v.entries, keys[0], c, keys[0]);
      assert keys[1..][i - 1] != other[1..][i - 1];
      SetKeepsSiblings(child, keys[1..], x, other[1..], default);
      if Get(v.entries, keys[0]).None? {
        FreshLookup(other[1..], default);
      }
    }
  }

  /** Looking up a non-empty path in a dictionary looks up the rest in the child. */
  lemma LookupStep(v: Value, keys: seq<string>, default: Value)
    requires v.Map? && keys != []
    ensures Lookup(v, keys, default) ==
      match Get(v.entries, keys[0])
      case None => default
      case Some(c) => Lookup(c, keys[1..], default)
  {
  }

  /** Nothing but the empty path is found in an empty dictionary. */
  lemma FreshLookup(keys: seq<string>, default: Value)
    requires keys != []
    ensures Lookup(Map([]), keys, default) == default
  {
  }

  /** Assigning below a key that is absent always succeeds: the dictionaries on
      the way are all new. */
  lemma {:induction false} SetIntoMissing(v: Value, keys: seq<string>, x: Value)
    requires |keys| >= 1 && v.Map? && (|keys| == 1 || Get(v.entries, keys[0]).None?)
    ensures SetPath(v, keys, x).Some?
    decreases |keys|
  {
    if |keys| > 1 {
      FreshSet(keys[1..], x);
    }
  }

  lemma {:induction false} FreshSet(keys: seq<string>, x: Value)
    requires |keys| >= 1
    ensures SetPath(Map([]), keys, x).Some?
    decreases |keys|
  {
    if |keys| > 1 {
      FreshSet(keys[1..], x);
    }
  }

  /** A failing assignment met a value that is not a dictionary on its way. */
  lemma {:induction false} SetFailure(v: Value, keys: seq<string>, x: Value)
    requires |keys| >= 1 && SetPath(v, keys, x).None?
    ensures exists i :: 0 <= i < |keys| && Reach(v, keys[..i]).Some? && !Reach(v, keys[..i]).value.Map?
    decreases |keys|
  {
    if !v.Map? {
      assert keys[..0] == [];
    } else {
      if Get(v.entries, keys[0]).None? {
        FreshSet(keys[1..], x);
        assert false;
      }
      var child := Get(v.entries, keys[0]).value;
      SetFailure(child, keys[1..], x);
      var i :| 0 <= i < |keys[1..]| && Reach(child, keys[1..][..i]).Some? && !Reach(child, keys[1..][..i]).value.Map?;
      assert keys[..i + 1][1..] == keys[1..][..i];
    }
  }

  /** The values of a rebuilt path: `inner` placed under the keys of the dictionaries
      met on the way down, innermost first. */
  function Rebuild(maps: seq<Dict<Value>>, keys: seq<string>, inner: Option<Value>): Option<Value>
    requires |maps| == |keys|
    decreases |maps|
  {
    if maps == [] || inner.None? then inner
    else
      var n := |maps| - 1;
      Rebuild(maps[..n], keys[..n], Some(Map(Put(maps[n], keys[n], inner.value))))
  }

  /** The default settings for a home directory. */
  function DefaultConfig(home: string): Value {
    Map([("version", Str("1.0.0")), ("monitoring", DefaultMonitoring()), ("monitored_files", DefaultMonitoredFiles(home))])
  }

  function DefaultMonitoring(): Value {
    Map([
      ("enabled", Bool(true)),
      ("notice_threshold", Int(1)),
      ("blocking_threshold", Int(5)),
      ("blocking_enabled", Bool(true)),
      ("ignored_commands", List([]))])
  }

  function DefaultMonitoredFiles(home: string): Value {
    Map([
      ("bash", List([Str(PathJoin(home, ".bashrc")), Str(PathJoin(home, ".bash_aliases")), Str(PathJoin(home, ".slothrc"))])),
      ("zsh", List([Str(PathJoin(home, ".zshrc")), Str(PathJoin(home, ".zsh_aliases")), Str(PathJoin(home, ".slothrc"))]))])
  }

  /** Monitoring is on by default, notices start at the first use, blocks at the
      fifth, and no command is ignored. */
  lemma DefaultSettings(home: string, default: Value)
    ensures var c := DefaultConfig(home);
      && Lookup(c, ["monitoring", "enabled"], default) == Bool(true)
      && Lookup(c, ["monitoring", "notice_threshold"], default) == Int(1)
      && Lookup(c, ["monitoring", "blocking_threshold"], default) == Int(5)
      && Lookup(c, ["monitoring", "blocking_enabled"], default) == Bool(true)
      && Lookup(c, ["monitoring", "ignored_commands"], default) == List([])
  {
    var c := DefaultConfig(home);
    var m := DefaultMonitoring().entries;
    assert Get(c.entries, "monitoring") == Some(DefaultMonitoring()) by {
      assert c.entries[0].0 != "monitoring" && c.entries[1].0 == "monitoring";
      assert c.entries[1..][0] == c.entries[1];
    }
    DefaultEntry(m, 0, Bool(true));
    DefaultEntry(m, 1, Int(1));
    DefaultEntry(m, 2, Int(5));
    DefaultEntry(m, 3, Bool(true));
    DefaultEntry(m, 4, List([]));
    LookupTwo(c, "monitoring", m[0].0, DefaultMonitoring(), Bool(true), default);
    LookupTwo(c, "monitoring", m[1].0, DefaultMonitoring(), Int(1), default);
    LookupTwo(c, "monitoring", m[2].0, DefaultMonitoring(), Int(5), default);
    LookupTwo(c, "monitoring", m[3].0, DefaultMonitoring(), Bool(true), default);
    LookupTwo(c, "monitoring", m[4].0, DefaultMonitoring(), List([]), default);
  }

  /** A path of two segments goes through the dictionary under the first. */
  lemma LookupTwo(c: Value, a: string, b: string, mid: Value, x: Value, default: Value)
    requires c.Map? && Get(c.entries, a) == Some(mid) && mid.Map? && Get(mid.entries, b) == Some(x)
    ensures Lookup(c, [a, b], default) == x
  {
    assert [a, b][1..] == [b] && [b][1..] == [];
    assert Reach(mid, [b]) == Reach(x, []) == Some(x);
  }

  /** The entry at a position of one of the default dictionaries is the one found under its key. */
  lemma DefaultEntry(m: Dict<Value>, i: nat, x: Value)
    requires m == DefaultMonitoring().entries && i < |m| && m[i].1 == x
    ensures Get(m, m[i].0) == Some(x)
  {
    assert m[0].0[0] == 'e' && m[1].0[0] == 'n' && m[4].0[0] == 'i';
    assert m[2].0[0] == 'b' && m[3].0[0] == 'b' && |m[2].0| != |m[3].0|;
    GetFirst(m, i);
  }

  /** The settings, with `saves` counting the writes of the settings file. */
  class Config {
    var data: Value
    var saves: nat

    constructor (data: Value)
      ensures this.data == data && saves == 0
    {
      this.data := data;
      saves := 0;
    }

    /** `get(key, default)`: one segment of the key at a time. */
    method Get(key: string, default: Value) returns (r: Value)
      ensures r == Lookup(data, SplitOn(key, '.'), default)
    {
      var keys := SplitOn(key, '.');
      var value := data;
      var i := 0;
      while i < |keys|
        invariant 0 <= i <= |keys|
        invariant Reach(data, keys) == Reach(value, keys[i..])
      {
        assert keys[i..][1..] == keys[i + 1..];
        if value.Map? && Dicts.Get(value.entries, keys[i]).Some? {
          value := Dicts.Get(value.entries, keys[i]).value;
        } else {
          return default;
        }
        i := i + 1;
      }
      return value;
    }

    /** `set(key, value)`: walks down the dictionaries, creating missing ones,
        assigns the last segment, and saves. `ok` is false where Python raises,
        and then nothing has changed. */
    method Set(key: string, value: Value) returns (ok: bool)
      modifies this
      ensures var r := SetPath(old(data), SplitOn(key, '.'), value);
        && ok == r.Some?
        && (ok ==> data == r.value && saves == old(saves) + 1)
        && (!ok ==> data == old(data) && saves == old(saves))
    {
      var keys := SplitOn(key, '.');
      var last := |keys| - 1;
      var maps: seq<Dict<Value>> := [];
      var current := data;
      var i := 0;
      while i < last
        invariant 0 <= i <= last && |maps| == i
        invariant data == old(data) && saves == old(saves)
        invariant SetPath(data, keys, value) == Rebuild(maps, keys[..i], SetPath(current, keys[i..], value))
      {
        if !current.Map? {
          RebuildNone(maps, keys[..i]);
          return false;
        }
        DescendStep(maps, keys, i, current, value);
        maps := maps + [current.entries];
        current := ChildOrEmpty(current.entries, keys[i]);
        i := i + 1;
      }
      if !current.Map? {
        RebuildNone(maps, keys[..i]);
        return false;
      }
      assert keys[i..] == [keys[last]];
      var node := RebuildLoop(maps, keys[..i], Map(Put(current.entries, keys[last], value)));
      data := node;
      saves := saves + 1;
      ok := true;
    }
  }

  /** The assignments back up the path: each dictionary met on the way down takes
      the rebuilt value under its key, innermost first. */
  method RebuildLoop(maps: seq<Dict<Value>>, keys: seq<string>, inner: Value) returns (node: Value)
    requires |maps| == |keys|
    ensures Rebuild(maps, keys, Some(inner)) == Some(node)
  {
    node := inner;
    var j := |maps|;
    assert maps[..j] == maps && keys[..j] == keys;
    while j > 0
      invariant 0 <= j <= |maps|
      invariant Rebuild(maps, keys, Some(inner)) == Rebuild(maps[..j], keys[..j], Some(node))
    {
      assert maps[..j][..j - 1] == maps[..j - 1];
      assert keys[..j][..j - 1] == keys[..j - 1];
      node := Map(Put(maps[j - 1], keys[j - 1], node));
      j := j - 1;
    }
  }

  /** Going one dictionary further down keeps the result of the whole assignment. */
  lemma DescendStep(maps: seq<Dict<Value>>, keys: seq<string>, i: nat, current: Value, value: Value)
    requires current.Map? && i + 1 < |keys| && |maps| == i
    ensures Rebuild(maps, keys[..i], SetPath(current, keys[i..], value)) ==
            Rebuild(maps + [current.entries], keys[..i + 1], SetPath(ChildOrEmpty(current.entries, keys[i]), keys[i + 1..], value))
  {
    assert keys[i..][1..] == keys[i + 1..];
    assert keys[..i] + [keys[i]] == keys[..i + 1];
    RebuildOuter(maps, keys[..i], current.entries, keys[i], SetPath(ChildOrEmpty(current.entries, keys[i]), keys[i + 1..], value));
  }

  lemma RebuildNone(maps: seq<Dict<Value>>, keys: seq<string>)
    requires |maps| == |keys|
    ensures Rebuild(maps, keys, None) == None
  {
  }

  /** One more dictionary on the way down wraps the inner result in it. */
  lemma RebuildOuter(maps: seq<Dict<Value>>, keys: seq<string>, m: Dict<Value>, k: string, inner: Option<Value>)
    requires |maps| == |keys|
    ensures Rebuild(maps + [m], keys + [k], inner) ==
            Rebuild(maps, keys, match inner case None => None case Some(c) => Some(Map(Put(m, k, c))))
  {
    if inner.Some? {
      assert (maps + [m])[..|maps|] == maps;
      assert (keys + [k])[..|keys|] == keys;
    } else {
      RebuildNone(maps, keys);
      RebuildNone(maps + [m], keys + [k]);
    }
  }
}
