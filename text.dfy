/**
 * The string primitives of Python that the tool relies on, written out:
 * whitespace as `str.isspace` and the regular-expression class `\s` see it,
 * `lstrip`/`strip`, `split()` (on runs of whitespace), `split(sep)`,
 * `sep.join`, `startswith`, `in` on strings and `replace`.
 */
module Text {
  import opened Wrappers

  /** Python's whitespace characters (`str.isspace`, and `\s` of the `re` module). */
  predicate IsSpace(c: char) {
    || ('\t' <= c <= '\r')
    || ('\U{1C}' <= c <= '\U{1F}')
    || c == ' ' || c == '\U{85}' || c == '\U{A0}' || c == '\U{1680}'
    || ('\U{2000}' <= c <= '\U{200A}')
    || c == '\U{2028}' || c == '\U{2029}' || c == '\U{202F}' || c == '\U{205F}' || c == '\U{3000}'
  }

  predicate NoSpace(s: string) {
    forall i :: 0 <= i < |s| ==> !IsSpace(s[i])
  }

  /** `s.lstrip()` */
  function LStrip(s: string): string {
    if s == [] || !IsSpace(s[0]) then s else LStrip(s[1..])
  }

  /** `s.rstrip()` */
  function RStrip(s: string): string {
    if s == [] || !IsSpace(s[|s| - 1]) then s else RStrip(s[..|s| - 1])
  }

  /** `s.strip()` */
  function Strip(s: string): string {
    RStrip(LStrip(s))
  }

  /** `lstrip` removes exactly the leading whitespace: what it keeps is a suffix
      that is empty or starts with a non-whitespace character. */
  lemma {:induction false} LStripShape(s: string)
    ensures |LStrip(s)| <= |s| && LStrip(s) == s[|s| - |LStrip(s)|..]
    ensures LStrip(s) == [] || !IsSpace(LStrip(s)[0])
    ensures forall i :: 0 <= i < |s| - |LStrip(s)| ==> IsSpace(s[i])
  {
    if s != [] && IsSpace(s[0]) {
      LStripShape(s[1..]);
      assert forall i :: 1 <= i < |s| ==> s[1..][i - 1] == s[i];
    }
  }

  /** `rstrip` removes exactly the trailing whitespace. */
  lemma {:induction false} RStripShape(s: string)
    ensures |RStrip(s)| <= |s| && RStrip(s) == s[..|RStrip(s)|]
    ensures RStrip(s) == [] || !IsSpace(RStrip(s)[|RStrip(s)| - 1])
    ensures forall i :: |RStrip(s)| <= i < |s| ==> IsSpace(s[i])
  {
    if s != [] && IsSpace(s[|s| - 1]) {
      RStripShape(s[..|s| - 1]);
    }
  }

  /** What `strip` leaves has no leading or trailing whitespace. */
  lemma StripTrimmed(s: string)
    ensures Trimmed(Strip(s))
  {
    var l := LStrip(s);
    LStripShape(s);
    RStripShape(l);
    if RStrip(l) != [] {
      assert RStrip(l)[0] == l[0];
    }
  }

  /** No leading or trailing whitespace. */
  predicate Trimmed(s: string) {
    s == [] || (!IsSpace(s[0]) && !IsSpace(s[|s| - 1]))
  }

  lemma StripOfTrimmed(s: string)
    requires Trimmed(s)
    ensures Strip(s) == s
  {
    assert LStrip(s) == s;
  }

  /** `s.split()`: the maximal runs of non-whitespace characters, in order.
      A non-whitespace character followed by another one joins the first word
      of the rest; otherwise it forms a word of its own. */
  function Words(s: string): (r: seq<string>)
    ensures s != [] && !IsSpace(s[0]) ==> r != [] && r[0] != [] && r[0][0] == s[0]
  {
    if s == [] then []
    else if IsSpace(s[0]) then Words(s[1..])
    else
      var rest := Words(s[1..]);
      if |s| > 1 && !IsSpace(s[1]) then [[s[0]] + rest[0]] + rest[1..]
      else [[s[0]]] + rest
  }

  /** Every word is a nonempty run of non-whitespace characters. */
  lemma {:induction false} WordsClean(s: string)
    ensures forall i :: 0 <= i < |Words(s)| ==> Words(s)[i] != [] && NoSpace(Words(s)[i])
  {
    if s != [] {
      WordsClean(s[1..]);
    }
  }

  /** `' '.join(ws)` */
  function JoinSpace(ws: seq<string>): string {
    if ws == [] then ""
    else if |ws| == 1 then ws[0]
    else ws[0] + " " + JoinSpace(ws[1..])
  }

  /** The first whitespace-separated token; `command` itself when there is none,
      as `command.split()[0] if command.split() else command` computes it. */
  function FirstWordOr(s: string): string {
    var ws := Words(s);
    if ws == [] then s else ws[0]
  }

  /** Splitting two strings separated by whitespace splits each of them. */
  lemma {:induction false} WordsConcat(x: string, y: string)
    requires x == [] || y == [] || IsSpace(x[|x| - 1]) || IsSpace(y[0])
    ensures Words(x + y) == Words(x) + Words(y)
  {
    if x == [] {
      assert x + y == y;
    } else {
      var s := x + y;
      var t := x[1..];
      assert s[0] == x[0];
      assert s[1..] == t + y;
      if t != [] {
        assert t[|t| - 1] == x[|x| - 1];
      }
      WordsConcat(t, y);
      if !IsSpace(x[0]) {
        if t == [] {
          assert !IsSpace(x[|x| - 1]);
          assert s[1..] == y;
          assert Words(s) == [[x[0]]] + Words(y);
        } else {
          assert s[1] == t[0] == x[1];
          if !IsSpace(t[0]) {
            ConsFirstWord(x[0], Words(t), Words(y));
          }
        }
      }
    }
  }

  lemma ConsFirstWord(c: char, a: seq<string>, b: seq<string>)
    requires a != []
    ensures [[c] + (a + b)[0]] + (a + b)[1..] == ([[c] + a[0]] + a[1..]) + b
  {
    assert (a + b)[0] == a[0];
    assert (a + b)[1..] == a[1..] + b;
  }

  /** A single word splits to itself. */
  lemma {:induction false} WordsOfWord(w: string)
    requires w != [] && NoSpace(w)
    ensures Words(w) == [w]
  {
    if |w| > 1 {
      assert w[1] == w[1..][0];
      WordsOfWord(w[1..]);
      assert [w[0]] + w[1..] == w;
    } else {
      assert w == [w[0]];
      assert w[1..] == [];
    }
  }

  /** Splitting a join of words gives the words back. */
  lemma {:induction false} WordsOfJoin(ws: seq<string>)
    requires forall i :: 0 <= i < |ws| ==> ws[i] != [] && NoSpace(ws[i])
    ensures Words(JoinSpace(ws)) == ws
  {
    if ws != [] {
      WordsOfWord(ws[0]);
      if |ws| > 1 {
        var tail := " " + JoinSpace(ws[1..]);
        assert JoinSpace(ws) == ws[0] + tail;
        WordsConcat(ws[0], tail);
        assert tail[1..] == JoinSpace(ws[1..]);
        WordsOfJoin(ws[1..]);
      }
    }
  }

  /** Joining words after a string with a single space appends those words to its own. */
  lemma WordsOfSpaceJoin(a: string, ws: seq<string>)
    requires forall i :: 0 <= i < |ws| ==> ws[i] != [] && NoSpace(ws[i])
    ensures Words(a + " " + JoinSpace(ws)) == Words(a) + ws
  {
    var tail := " " + JoinSpace(ws);
    assert a + " " + JoinSpace(ws) == a + tail;
    WordsConcat(a, tail);
    assert tail[1..] == JoinSpace(ws);
    WordsOfJoin(ws);
  }

  /** The last character of a join is that of its last word. */
  lemma {:induction false} JoinSpaceLast(ws: seq<string>)
    requires ws != [] && ws[|ws| - 1] != []
    ensures JoinSpace(ws) != [] && JoinSpace(ws)[|JoinSpace(ws)| - 1] == ws[|ws| - 1][|ws[|ws| - 1]| - 1]
  {
    if |ws| > 1 {
      JoinSpaceLast(ws[1..]);
    }
  }

  /** `f"{a} {' '.join(ws)}".strip()` is `a`, a space and the joined words when `a` is
      trimmed and not empty, and just `a` when there are no words. */
  lemma StripSpaceJoin(a: string, ws: seq<string>)
    requires a != [] && Trimmed(a)
    requires forall i :: 0 <= i < |ws| ==> ws[i] != [] && NoSpace(ws[i])
    ensures Strip(a + " " + JoinSpace(ws)) == if ws == [] then a else a + " " + JoinSpace(ws)
  {
    if ws == [] {
      assert a + " " + JoinSpace(ws) == a + " ";
      StripTrailingSpace(a);
    } else {
      StripJoined(a, ws);
    }
  }

  lemma StripJoined(a: string, ws: seq<string>)
    requires a != [] && Trimmed(a)
    requires ws != [] && ws[|ws| - 1] != []
    requires NoSpace(ws[|ws| - 1])
    ensures Strip(a + " " + JoinSpace(ws)) == a + " " + JoinSpace(ws)
  {
    JoinSpaceLast(ws);
    TrimmedJoin(a, JoinSpace(ws));
    StripOfTrimmed(a + " " + JoinSpace(ws));
  }

  lemma StripTrailingSpace(a: string)
    requires a != [] && Trimmed(a)
    ensures Strip(a + " ") == a
  {
    var s := a + " ";
    assert s[0] == a[0];
    assert LStrip(s) == s;
    assert s[..|s| - 1] == a;
    assert RStrip(s) == RStrip(a);
    StripOfTrimmed(a);
  }

  lemma TrimmedJoin(a: string, b: string)
    requires a != [] && b != [] && !IsSpace(a[0]) && !IsSpace(b[|b| - 1])
    ensures Trimmed(a + " " + b)
  {
    var s := a + " " + b;
    assert s[0] == a[0];
    assert s[|s| - 1] == b[|b| - 1];
  }

  // ---- prefixes and substrings ----

  /** `s.startswith(p)` */
  predicate StartsWith(s: string, p: string) {
    p <= s
  }

  predicate OccursAt(s: string, p: string, i: nat) {
    i + |p| <= |s| && s[i..i + |p|] == p
  }

  /** `p in s` for strings. */
  predicate Contains(s: string, p: string) {
    exists i: nat | i <= |s| :: OccursAt(s, p, i)
  }

  // ---- split on a separator and join ----

  /** The index of the first occurrence of `c` in `s`. */
  function IndexOf(s: string, c: char): (i: nat)
    requires c in s
    ensures i < |s| && s[i] == c && c !in s[..i]
  {
    if s[0] == c then 0
    else
      var k := IndexOf(s[1..], c);
      assert s[..k + 1] == [s[0]] + s[1..][..k];
      k + 1
  }

  /** `s.split(sep)` for a one-character separator. */
  function SplitOn(s: string, sep: char): (r: seq<string>)
    ensures |r| >= 1
    ensures forall i :: 0 <= i < |r| ==> sep !in r[i]
    decreases |s|
  {
    if sep !in s then [s]
    else
      var i := IndexOf(s, sep);
      [s[..i]] + SplitOn(s[i + 1..], sep)
  }

  /** `sep.join(parts)` for a one-character separator. */
  function JoinOn(parts: seq<string>, sep: char): string {
    if parts == [] then ""
    else if |parts| == 1 then parts[0]
    else parts[0] + [sep] + JoinOn(parts[1..], sep)
  }

  /** Splitting what was joined gives the parts back when no part holds the separator. */
  lemma {:induction false} SplitOfJoin(parts: seq<string>, sep: char)
    requires |parts| >= 1
    requires forall i :: 0 <= i < |parts| ==> sep !in parts[i]
    ensures SplitOn(JoinOn(parts, sep), sep) == parts
  {
    if |parts| > 1 {
      var s := JoinOn(parts, sep);
      var rest := JoinOn(parts[1..], sep);
      assert s == parts[0] + [sep] + rest;
      assert s[|parts[0]|] == sep;
      assert s[..|parts[0]|] == parts[0];
      assert sep in s;
      assert IndexOf(s, sep) == |parts[0]|;
      assert s[|parts[0]| + 1..] == rest;
      SplitOfJoin(parts[1..], sep);
    }
  }

  /** `s.replace(target, repl)` for a one-character `target`. */
  function ReplaceChar(s: string, target: char, repl: string): (r: string)
    ensures target !in repl ==> target !in r
  {
    if s == [] then ""
    else (if s[0] == target then repl else [s[0]]) + ReplaceChar(s[1..], target, repl)
  }

  lemma ReplaceAbsent(s: string, target: char, repl: string)
    requires target !in s
    ensures ReplaceChar(s, target, repl) == s
  {
    if s != [] {
      assert target !in s[1..];
      ReplaceAbsent(s[1..], target, repl);
    }
  }

  // ---- paths ----

  /** The text after the last slash, trailing slashes dropped first. This is
      `Path(p).name` except that pathlib also drops `.` components, so for
      `a/.` it gives `a` where this gives `.`. */
  function BaseName(p: string): (r: string)
    ensures '/' !in r
  {
    var q := DropTrailingSlashes(p);
    if '/' !in q then q else AfterLastSlash(q)
  }

  /** The last component of `dir/name` is `name`. */
  lemma BaseNameOf(dir: string, name: string)
    requires name != [] && '/' !in name
    ensures BaseName(dir + "/" + name) == name
  {
    var p := dir + "/" + name;
    assert p[|p| - 1] == name[|name| - 1];
    assert '/' in p by {
      assert p[|dir|] == '/';
    }
    AfterSlash(dir, name);
  }

  lemma {:induction false} AfterSlash(dir: string, name: string)
    requires '/' !in name
    ensures AfterLastSlash(dir + "/" + name) == name
    decreases |name|
  {
    var p := dir + "/" + name;
    if name != [] {
      var n := |name| - 1;
      assert p[..|p| - 1] == dir + "/" + name[..n];
      assert p[|p| - 1] == name[n];
      AfterSlash(dir, name[..n]);
      assert name == name[..n] + [name[n]];
    } else {
      assert p[..|p| - 1] == dir;
    }
  }

  function DropTrailingSlashes(p: string): string {
    if p != [] && p[|p| - 1] == '/' then DropTrailingSlashes(p[..|p| - 1]) else p
  }

  function AfterLastSlash(p: string): (r: string)
    ensures '/' !in r
  {
    if p == [] then ""
    else if p[|p| - 1] == '/' then ""
    else AfterLastSlash(p[..|p| - 1]) + [p[|p| - 1]]
  }

  /** Position of the last occurrence of `c`, if any. */
  function LastIndexOf(s: string, c: char): (r: Option<nat>)
    ensures r.None? <==> c !in s
    ensures r.Some? ==> r.value < |s| && s[r.value] == c && c !in s[r.value + 1..]
  {
    if s == [] then None
    else if s[|s| - 1] == c then Some(|s| - 1)
    else
      var r := LastIndexOf(s[..|s| - 1], c);
      assert r.Some? ==> s[r.value + 1..] == s[..|s| - 1][r.value + 1..] + [s[|s| - 1]];
      assert r.None? ==> s == s[..|s| - 1] + [s[|s| - 1]];
      r
  }

  /** `Path(name).stem`: the name without its last suffix, where a suffix is a
      final `.` part that neither starts the name nor is empty. */
  function Stem(name: string): (r: string)
    ensures r <= name
    ensures r == name || (0 < |r| < |name| - 1 && name[|r|] == '.' && '.' !in name[|r| + 1..])
  {
    match LastIndexOf(name, '.')
    case None => name
    case Some(i) => if 0 < i < |name| - 1 then name[..i] else name
  }

  /** `home / name` for a single path component `name`. */
  function PathJoin(home: string, name: string): string {
    if home != [] && home[|home| - 1] == '/' then home + name else home + "/" + name
  }
}
