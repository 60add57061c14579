/**
 * The two regular-expression rewrites that take the integration out of a
 * shell configuration file, written as left-to-right scans:
 *   `re.sub(START + ".*?" + END + r"\s*", "", s, flags=re.DOTALL)` and
 *   `re.sub(r"\n{3,}", "\n\n", s)`.
 * The start and end markers are parameters; each installer fixes its own.
 */
module MarkerBlocks {
  import opened Wrappers
  import opened Text

  // ---- the block pattern ----

  /** The first position at or after `k` where `p` occurs in `s`. */
  function FindFrom(s: string, p: string, k: nat): (r: Option<nat>)
    ensures r.Some? ==> k <= r.value && r.value + |p| <= |s|
    decreases |s| - k
  {
    if k + |p| > |s| then None
    else if OccursAt(s, p, k) then Some(k)
    else FindFrom(s, p, k + 1)
  }

  /** `FindFrom` finds the first occurrence, and misses none. */
  lemma {:induction false} FindFromFirst(s: string, p: string, k: nat)
    ensures FindFrom(s, p, k).Some? ==>
      && OccursAt(s, p, FindFrom(s, p, k).value)
      && forall j: nat :: k <= j < FindFrom(s, p, k).value ==> !OccursAt(s, p, j)
    ensures FindFrom(s, p, k).None? ==> forall j: nat :: k <= j ==> !OccursAt(s, p, j)
    decreases |s| - k
  {
    if k + |p| <= |s| && !OccursAt(s, p, k) {
      FindFromFirst(s, p, k + 1);
    }
  }

  /** An occurrence with none before it, from `k` on, is what `FindFrom` finds. */
  lemma {:induction false} FindFromIs(s: string, p: string, k: nat, m: nat)
    requires k <= m && OccursAt(s, p, m)
    requires forall j: nat :: k <= j < m ==> !OccursAt(s, p, j)
    ensures FindFrom(s, p, k) == Some(m)
    decreases m - k
  {
    if k < m {
      FindFromIs(s, p, k + 1, m);
    }
  }

  /** The end of the run of whitespace starting at `k` (`\s*`, greedy). */
  function SkipSpace(s: string, k: nat): (r: nat)
    requires k <= |s|
    ensures k <= r <= |s|
    decreases |s| - k
  {
    if k < |s| && IsSpace(s[k]) then SkipSpace(s, k + 1) else k
  }

  /** The length of the match of `START.*?END\s*` at the front of `s`, if there is one:
      the start marker, everything up to the nearest end marker after it, that
      marker and the whitespace following it. */
  function MatchAt(s: string, start: string, end: string): (r: Option<nat>)
    ensures r.Some? ==> |start| <= r.value <= |s|
  {
    if !StartsWith(s, start) then None
    else
      match FindFrom(s, end, |start|)
      case None => None
      case Some(j) => Some(SkipSpace(s, j + |end|))
  }

  /** `re.sub(START.*?END\s*, "", s)`: one pass, left to right; after a match the
      scan goes on behind it, elsewhere one character is kept. */
  function RemoveBlocks(s: string, start: string, end: string): (r: string)
    requires start != []
    ensures |r| <= |s|
    decreases |s|
  {
    if s == [] then []
    else
      match MatchAt(s, start, end)
      case Some(k) => RemoveBlocks(s[k..], start, end)
      case None => [s[0]] + RemoveBlocks(s[1..], start, end)
  }

  /** Whether `s` holds a complete block: a start marker with an end marker after it. */
  ghost predicate HasBlock(s: string, start: string, end: string) {
    exists i: nat, j: nat :: OccursAt(s, start, i) && i + |start| <= j && OccursAt(s, end, j)
  }

  /** A match at the front is exactly a start marker there with an end marker after it. */
  lemma MatchAtFront(s: string, start: string, end: string)
    ensures MatchAt(s, start, end).Some? <==>
      StartsWith(s, start) && exists j: nat :: |start| <= j && OccursAt(s, end, j)
  {
    FindFromFirst(s, end, |start|);
  }

  lemma ShiftDown(s: string, p: string, i: nat)
    requires 1 <= i && OccursAt(s, p, i)
    ensures s != [] && OccursAt(s[1..], p, i - 1)
  {
    assert s[1..][i - 1..i - 1 + |p|] == s[i..i + |p|];
  }

  lemma ShiftUp(s: string, p: string, i: nat)
    requires s != [] && OccursAt(s[1..], p, i)
    ensures OccursAt(s, p, i + 1)
  {
    assert s[1..][i..i + |p|] == s[i + 1..i + 1 + |p|];
  }

  /** A pass over text holding a block removes something. */
  lemma {:induction false} BlockShrinks(s: string, start: string, end: string)
    requires start != []
    ensures HasBlock(s, start, end) ==> |RemoveBlocks(s, start, end)| < |s|
    decreases |s|
  {
    if HasBlock(s, start, end) {
      var i: nat, j: nat :| OccursAt(s, start, i) && i + |start| <= j && OccursAt(s, end, j);
      MatchAtFront(s, start, end);
      if MatchAt(s, start, end).None? {
        assert OccursAt(s, start, 0) ==> StartsWith(s, start);
        assert i != 0;
        ShiftDown(s, start, i);
        ShiftDown(s, end, j);
        assert HasBlock(s[1..], start, end);
        BlockShrinks(s[1..], start, end);
      }
    }
  }

  /** Text without a complete block passes through unchanged. */
  lemma {:induction false} NoBlockUntouched(s: string, start: string, end: string)
    requires start != []
    requires !HasBlock(s, start, end)
    ensures RemoveBlocks(s, start, end) == s
    decreases |s|
  {
    if s != [] {
      MatchAtFront(s, start, end);
      if MatchAt(s, start, end).Some? {
        var j: nat :| |start| <= j && OccursAt(s, end, j);
        assert OccursAt(s, start, 0);
        assert false;
      }
      if HasBlock(s[1..], start, end) {
        var i: nat, j: nat :| OccursAt(s[1..], start, i) && i + |start| <= j && OccursAt(s[1..], end, j);
        ShiftUp(s, start, i);
        ShiftUp(s, end, j);
        assert false;
      }
      NoBlockUntouched(s[1..], start, end);
      assert s == [s[0]] + s[1..];
    }
  }

  /** Characters where no start marker begins are kept, in order. */
  lemma KeepPrefix(x: string, t: string, start: string, end: string)
    requires start != []
    requires forall i: nat :: i < |x| ==> !StartsWith((x + t)[i..], start)
    ensures RemoveBlocks(x + t, start, end) == x + RemoveBlocks(t, start, end)
  {
    var s := x + t;
    KeepUnmarked(s, |x|, start, end);
    assert s[..|x|] == x && s[|x|..] == t;
  }

  /** The first `n` characters, none of which begins a start marker, are kept as they are. */
  lemma {:induction false} KeepUnmarked(s: string, n: nat, start: string, end: string)
    requires start != [] && n <= |s|
    requires forall i: nat :: i < n ==> !StartsWith(s[i..], start)
    ensures RemoveBlocks(s, start, end) == s[..n] + RemoveBlocks(s[n..], start, end)
    decreases n
  {
    if n > 0 {
      var u := s[1..];
      forall i: nat | i < n - 1
        ensures !StartsWith(u[i..], start)
      {
        assert u[i..] == s[i + 1..];
      }
      KeepUnmarked(u, n - 1, start, end);
      assert s[0..] == s;
      KeepFirst(s, n, start, end);
    }
  }

  /** One kept character in front of the kept rest of the prefix. */
  lemma KeepFirst(s: string, n: nat, start: string, end: string)
    requires start != [] && 0 < n <= |s| && !StartsWith(s, start)
    requires RemoveBlocks(s[1..], start, end) == s[1..][..n - 1] + RemoveBlocks(s[1..][n - 1..], start, end)
    ensures RemoveBlocks(s, start, end) == s[..n] + RemoveBlocks(s[n..], start, end)
  {
    KeepChar(s, start, end);
    assert s[1..][n - 1..] == s[n..];
    ConsSplice(s, n, RemoveBlocks(s, start, end), RemoveBlocks(s[1..], start, end), RemoveBlocks(s[n..], start, end));
  }

  /** The first character in front of the next `n - 1` is the first `n`. */
  lemma ConsSplice(s: string, n: nat, a: string, b: string, r: string)
    requires 0 < n <= |s| && a == [s[0]] + b && b == s[1..][..n - 1] + r
    ensures a == s[..n] + r
  {
    assert s[..n] == [s[0]] + s[1..][..n - 1];
  }

  /** A character where no start marker begins is kept. */
  lemma KeepChar(s: string, start: string, end: string)
    requires start != [] && s != [] && !StartsWith(s, start)
    ensures RemoveBlocks(s, start, end) == [s[0]] + RemoveBlocks(s[1..], start, end)
  {
    assert MatchAt(s, start, end).None?;
  }

  /** Text holding no start marker at all passes through unchanged. */
  lemma WithoutMarker(s: string, start: string, end: string)
    requires start != [] && !Contains(s, start)
    ensures RemoveBlocks(s, start, end) == s
  {
    forall i: nat | i < |s|
      ensures !StartsWith((s + [])[i..], start)
    {
      assert (s + [])[i..] == s[i..];
      if StartsWith(s[i..], start) {
        assert s[i..][..|start|] == s[i..i + |start|];
        assert OccursAt(s, start, i);
      }
    }
    KeepPrefix(s, [], start, end);
    assert s + [] == s;
  }

  // ---- repeating the pass until no block is left ----

  /** Passes of `RemoveBlocks` until one removes nothing. */
  function RemoveAllBlocks(s: string, start: string, end: string): (r: string)
    requires start != []
    decreases |s|
  {
    var t := RemoveBlocks(s, start, end);
    if |t| == |s| then s else RemoveAllBlocks(t, start, end)
  }

  /** After the repeated passes no complete block is left. */
  lemma {:induction false} NoBlockLeft(s: string, start: string, end: string)
    requires start != []
    ensures !HasBlock(RemoveAllBlocks(s, start, end), start, end)
    decreases |s|
  {
    var t := RemoveBlocks(s, start, end);
    if |t| == |s| {
      BlockShrinks(s, start, end);
    } else {
      NoBlockLeft(t, start, end);
    }
  }

  /** Whenever one pass already leaves no block, the repeated passes give the same text. */
  lemma OnePassSuffices(s: string, start: string, end: string)
    requires start != []
    requires !HasBlock(RemoveBlocks(s, start, end), start, end)
    ensures RemoveAllBlocks(s, start, end) == RemoveBlocks(s, start, end)
  {
    var t := RemoveBlocks(s, start, end);
    NoBlockUntouched(t, start, end);
    if |t| == |s| {
      BlockShrinks(s, start, end);
      NoBlockUntouched(s, start, end);
    }
  }

  /** The front of `start + end + rest` is one whole block when `rest` begins with no whitespace. */
  lemma AdjacentMatch(start: string, end: string, rest: string)
    requires rest != [] && !IsSpace(rest[0])
    ensures MatchAt(start + end + rest, start, end) == Some(|start| + |end|)
  {
    var u := start + end + rest;
    assert u[..|start|] == start;
    assert u[|start|..|start| + |end|] == end;
    FindFromIs(u, end, |start|, |start|);
    assert u[|start| + |end|] == rest[0];
  }

  /** A start marker followed by an end marker is a complete block. */
  lemma MarkersBlock(x: string, start: string, end: string, y: string)
    ensures HasBlock(x + start + end + y, start, end)
  {
    var s := x + start + end + y;
    assert s[|x|..|x| + |start|] == start;
    assert s[|x| + |start|..|x| + |start| + |end|] == end;
    assert OccursAt(s, start, |x|) && OccursAt(s, end, |x| + |start|);
  }

  lemma DropConcat(x: string, y: string, z: string, i: nat)
    requires i <= |x|
    ensures (x + (y + z))[i..] == (x[i..] + y) + z
  {
  }

  lemma PrefixStarts(x: string, y: string, p: string)
    requires StartsWith(x + y, p) && |p| <= |x|
    ensures StartsWith(x, p)
  {
    assert (x + y)[..|p|] == x[..|p|];
  }

  lemma NoStartInFront(a: string, start: string, w: string)
    requires forall i: nat :: i < |a| ==> !StartsWith(a[i..] + start, start)
    ensures forall i: nat :: i < |a| ==> !StartsWith((a + (start + w))[i..], start)
  {
    forall i: nat | i < |a|
      ensures !StartsWith((a + (start + w))[i..], start)
    {
      DropConcat(a, start, w, i);
      if StartsWith((a + (start + w))[i..], start) {
        PrefixStarts(a[i..] + start, w, start);
      }
    }
  }

  /** A block right at the front goes, and text after it without a start marker stays. */
  lemma AdjacentRemoved(start: string, end: string, rest: string)
    requires start != [] && rest != [] && !IsSpace(rest[0]) && !Contains(rest, start)
    ensures RemoveBlocks(start + (end + rest), start, end) == rest
  {
    var u := start + (end + rest);
    assert u == start + end + rest;
    AdjacentMatch(start, end, rest);
    assert u[|start| + |end|..] == rest;
    WithoutMarker(rest, start, end);
  }

  /** What one pass leaves of `a + start + end + rest` when no start marker begins in `a`. */
  lemma ReformedText(start: string, end: string, a: string, rest: string)
    requires start != [] && rest != [] && !IsSpace(rest[0]) && !Contains(rest, start)
    requires forall i: nat :: i < |a| ==> !StartsWith(a[i..] + start, start)
    ensures RemoveBlocks(a + (start + (end + rest)), start, end) == a + rest
  {
    NoStartInFront(a, start, end + rest);
    KeepPrefix(a, start + (end + rest), start, end);
    AdjacentRemoved(start, end, rest);
  }

  /** One pass can leave a complete block behind: the text before a removed block and
      the text after it join into a new start marker.  With `start == a + b`, the
      text `a + start + end + b + end` loses its inner block and becomes `start + end`. */
  lemma BlockReforms(start: string, end: string, a: string, b: string)
    requires start == a + b && b != [] && !IsSpace(b[0])
    requires forall i: nat :: i < |a| ==> !StartsWith(a[i..] + start, start)
    requires !Contains(b + end, start)
    ensures var s := a + start + end + b + end;
      && HasBlock(s, start, end)
      && RemoveBlocks(s, start, end) == start + end
      && HasBlock(RemoveBlocks(s, start, end), start, end)
  {
    ReformsTo(start, end, a, b);
    SplitJoin(start, end, a, b);
    MarkersBlock(a, start, end, b + end);
    MarkersBlock([], start, end, []);
  }

  lemma SplitJoin(start: string, end: string, a: string, b: string)
    requires start == a + b
    ensures a + (b + end) == start + end
    ensures a + start + end + (b + end) == a + start + end + b + end
    ensures [] + start + end + [] == start + end
  {
  }

  lemma ReformsTo(start: string, end: string, a: string, b: string)
    requires start != [] && b != [] && !IsSpace(b[0])
    requires forall i: nat :: i < |a| ==> !StartsWith(a[i..] + start, start)
    requires !Contains(b + end, start)
    ensures RemoveBlocks(a + start + end + b + end, start, end) == a + (b + end)
  {
    Regroup(a, start, end, b);
    ReformedText(start, end, a, b + end);
  }

  lemma Regroup(a: string, start: string, end: string, b: string)
    ensures a + start + end + b + end == a + (start + (end + (b + end)))
  {
  }

  /** With the markers `# P` and `# End P`, where `P` holds no `#`, the start marker does
      not occur in `P` followed by the end marker. */
  lemma NamedMarkers(product: string)
    requires '#' !in product && product != [] && product[0] != 'E'
    ensures !Contains(product + ("# End " + product), "# " + product)
  {
    var start := "# " + product;
    var w := product + ("# End " + product);
    var n := |product|;
    forall k | 0 <= k < |w|
      ensures w[k] == '#' ==> k == n
    {
      if k < n {
        assert w[k] == product[k];
      } else if k >= n + 6 {
        assert w[k] == product[k - n - 6];
      }
    }
    assert w[n + 2] == 'E' != start[2];
    forall i: nat | i <= |w|
      ensures !OccursAt(w, start, i)
    {
      if i + |start| <= |w| {
        assert w[i..i + |start|][0] == w[i];
        assert w[i..i + |start|][2] == w[i + 2];
      }
    }
  }

  // ---- appending a block and taking it out again ----

  /** The text `install` appends: a blank line, the start marker, the code and the end marker. */
  function Block(start: string, end: string, code: string): string {
    "\n\n" + start + "\n" + code + "\n" + end + "\n"
  }

  /** No position of `c + "\n\n"` begins a start marker when the marker has no line break
      and does not occur in `c`. */
  lemma NoStartBefore(c: string, t: string, start: string)
    requires start != [] && '\n' !in start && !Contains(c, start)
    ensures forall i: nat :: i < |c| + 2 ==> !StartsWith((c + "\n\n" + t)[i..], start)
  {
    var s := c + "\n\n" + t;
    forall i: nat | i < |c| + 2
      ensures !StartsWith(s[i..], start)
    {
      if i + |start| <= |c| {
        assert !OccursAt(c, start, i);
        assert s[i..][..|start|] == c[i..i + |start|];
      } else {
        var k := if i <= |c| then |c| - i else 0;
        assert s[i + k] == '\n';
        assert start[k] != s[i + k];
      }
    }
  }

  /** The end marker occurs in the appended block only where `install` put it. */
  lemma EndOnlyAtEnd(start: string, end: string, code: string)
    requires end != [] && '\n' !in end && !Contains(code, end)
    ensures var b := start + "\n" + code + "\n" + end + "\n";
      forall j: nat :: |start| <= j < |start| + |code| + 2 ==> !OccursAt(b, end, j)
  {
    var b := start + "\n" + code + "\n" + end + "\n";
    var q := |start|;
    assert b[q] == '\n' && b[q + 1 + |code|] == '\n';
    forall j: nat | q <= j < q + |code| + 2
      ensures !OccursAt(b, end, j)
    {
      if q + 1 <= j && j + |end| <= q + 1 + |code| {
        assert !OccursAt(code, end, j - q - 1);
        assert code[j - q - 1..j - q - 1 + |end|] == b[j..j + |end|];
      } else if j + |end| <= |b| {
        var nl := if j == q then q else q + 1 + |code|;
        assert end[nl - j] != b[j..j + |end|][nl - j];
      }
    }
  }

  /** `\s*` from `k` on takes exactly the leading whitespace that `lstrip` removes. */
  lemma {:induction false} SkipSpaceStrips(s: string, k: nat)
    requires k <= |s|
    ensures s[SkipSpace(s, k)..] == LStrip(s[k..])
    decreases |s| - k
  {
    if k < |s| && IsSpace(s[k]) {
      SkipSpaceStrips(s, k + 1);
      assert s[k..][1..] == s[k + 1..];
    }
  }

  /** An end marker before position `p` of `b + t` lies wholly inside `b`. */
  lemma EndInBlock(b: string, t: string, end: string, j: nat, p: nat)
    requires j < p && p + |end| <= |b| && OccursAt(b + t, end, j)
    ensures OccursAt(b, end, j)
  {
    assert (b + t)[j..j + |end|] == b[j..j + |end|];
  }

  lemma NoEarlyEnd(start: string, end: string, code: string, t: string)
    requires end != [] && '\n' !in end && !Contains(code, end)
    ensures var b := start + "\n" + code + "\n" + end + "\n";
      forall j: nat :: |start| <= j < |start| + |code| + 2 ==> !OccursAt(b + t, end, j)
  {
    var b := start + "\n" + code + "\n" + end + "\n";
    EndOnlyAtEnd(start, end, code);
    forall j: nat | |start| <= j < |start| + |code| + 2
      ensures !OccursAt(b + t, end, j)
    {
      if OccursAt(b + t, end, j) {
        EndInBlock(b, t, end, j, |start| + |code| + 2);
      }
    }
  }

  /** The nearest end marker after the start marker of an appended block is its own. */
  lemma AppendedEnd(start: string, end: string, code: string, t: string)
    requires end != [] && '\n' !in end && !Contains(code, end)
    ensures var b := start + "\n" + code + "\n" + end + "\n";
      FindFrom(b + t, end, |start|) == Some(|start| + |code| + 2)
  {
    var b := start + "\n" + code + "\n" + end + "\n";
    var s := b + t;
    var p := |start| + |code| + 2;
    NoEarlyEnd(start, end, code, t);
    assert s[p..p + |end|] == end;
    FindFromIs(s, end, |start|, p);
  }

  /** The appended block, without its leading blank line, is one whole match, and the
      match runs on over the whitespace that follows. */
  lemma AppendedMatch(start: string, end: string, code: string, t: string)
    requires end != [] && '\n' !in end && !Contains(code, end)
    ensures var b := start + "\n" + code + "\n" + end + "\n";
      && MatchAt(b + t, start, end).Some?
      && (b + t)[MatchAt(b + t, start, end).value..] == LStrip(t)
  {
    var b := start + "\n" + code + "\n" + end + "\n";
    var s := b + t;
    var p := |start| + |code| + 2;
    AppendedEnd(start, end, code, t);
    assert StartsWith(s, start) by {
      assert s[..|start|] == start;
    }
    assert |b| == p + |end| + 1 && b[p + |end|] == '\n';
    assert s[p + |end| + 1..] == t;
    MatchThrough(s, start, end, p, t);
  }

  /** A match whose end marker is followed by a line break and `t` runs on over the
      whitespace at the front of `t`. */
  lemma MatchThrough(s: string, start: string, end: string, p: nat, t: string)
    requires StartsWith(s, start) && FindFrom(s, end, |start|) == Some(p)
    requires p + |end| < |s| && s[p + |end|] == '\n' && s[p + |end| + 1..] == t
    ensures MatchAt(s, start, end).Some? && s[MatchAt(s, start, end).value..] == LStrip(t)
  {
    MatchValue(s, start, end, p);
    SkipBreak(s, p + |end|, t);
  }

  /** The match ends where the whitespace after the nearest end marker ends. */
  lemma MatchValue(s: string, start: string, end: string, p: nat)
    requires StartsWith(s, start) && FindFrom(s, end, |start|) == Some(p)
    requires p + |end| <= |s|
    ensures MatchAt(s, start, end) == Some(SkipSpace(s, p + |end|))
  {
  }

  /** Skipping whitespace from a line break strips the text after it. */
  lemma SkipBreak(s: string, k: nat, t: string)
    requires k < |s| && s[k] == '\n' && s[k + 1..] == t
    ensures s[SkipSpace(s, k)..] == LStrip(t)
  {
    assert SkipSpace(s, k) == SkipSpace(s, k + 1);
    SkipSpaceStrips(s, k + 1);
  }

  /** Taking out an appended block keeps the text before it with the blank line, and
      the text after it without its leading whitespace. */
  lemma RemoveAppendedThen(c: string, code: string, t: string, start: string, end: string)
    requires start != [] && '\n' !in start && end != [] && '\n' !in end
    requires !Contains(c, start) && !Contains(code, end)
    ensures RemoveBlocks(c + Block(start, end, code) + t, start, end) == c + "\n\n" + RemoveBlocks(LStrip(t), start, end)
  {
    var b := start + "\n" + code + "\n" + end + "\n";
    var x := c + "\n\n";
    assert c + Block(start, end, code) + t == x + (b + t);
    NoStartBefore(c, b + t, start);
    assert c + "\n\n" + (b + t) == x + (b + t);
    KeepPrefix(x, b + t, start, end);
    AppendedMatch(start, end, code, t);
  }

  /** Taking out the block just appended gives back the text before it, with the blank
      line that came with the block. */
  lemma RemoveAppended(c: string, code: string, start: string, end: string)
    requires start != [] && '\n' !in start && end != [] && '\n' !in end
    requires !Contains(c, start) && !Contains(code, end)
    ensures RemoveBlocks(c + Block(start, end, code), start, end) == c + "\n\n"
  {
    RemoveAppendedThen(c, code, [], start, end);
    assert c + Block(start, end, code) + [] == c + Block(start, end, code);
    assert LStrip([]) == [];
    assert c + "\n\n" + [] == c + "\n\n";
  }

  /** Text without a start marker holds no block. */
  lemma NoMarkerNoBlock(s: string, start: string, end: string)
    requires !Contains(s, start)
    ensures !HasBlock(s, start, end)
  {
    assert forall i: nat :: OccursAt(s, start, i) ==> i <= |s|;
  }

  /** Adding the blank line creates no start marker. */
  lemma PlainSuffix(c: string, start: string)
    requires start != [] && '\n' !in start && !Contains(c, start)
    ensures !Contains(c + "\n\n", start)
  {
    var s := c + "\n\n";
    NoStartBefore(c, [], start);
    assert s + [] == s;
    forall i: nat | i <= |s|
      ensures !OccursAt(s, start, i)
    {
      if i + |start| <= |s| {
        assert s[i..][..|start|] == s[i..i + |start|];
      }
    }
  }

  /** The appended block carries the start marker. */
  lemma BlockHasMarker(c: string, code: string, start: string, end: string)
    ensures Contains(c + Block(start, end, code), start)
  {
    var s := c + Block(start, end, code);
    assert s[|c| + 2..|c| + 2 + |start|] == start;
    assert OccursAt(s, start, |c| + 2);
  }

  /** The repeated passes, too, give back the text before the block just appended. */
  lemma RemoveAllAppended(c: string, code: string, start: string, end: string)
    requires start != [] && '\n' !in start && end != [] && '\n' !in end
    requires !Contains(c, start) && !Contains(code, end)
    ensures RemoveAllBlocks(c + Block(start, end, code), start, end) == c + "\n\n"
  {
    RemoveAppended(c, code, start, end);
    PlainSuffix(c, start);
    NoMarkerNoBlock(c + "\n\n", start, end);
    OnePassSuffices(c + Block(start, end, code), start, end);
  }

  // ---- collapsing newline runs ----

  /** The length of the run of line breaks at the front of `s`. */
  function NewlineRun(s: string): (n: nat)
    ensures n <= |s|
  {
    if s != [] && s[0] == '\n' then 1 + NewlineRun(s[1..]) else 0
  }

  /** `re.sub(r"\n{3,}", "\n\n", s)`: every run of three or more line breaks becomes two. */
  function Collapse(s: string): (r: string)
    decreases |s|
  {
    if s == [] then []
    else
      var n := NewlineRun(s);
      if n >= 3 then "\n\n" + Collapse(s[n..]) else [s[0]] + Collapse(s[1..])
  }

  /** No three line breaks in a row. */
  predicate NoTriple(s: string) {
    forall i :: 0 <= i < |s| - 2 ==> !(s[i] == '\n' && s[i + 1] == '\n' && s[i + 2] == '\n')
  }

  /** `s` without its line breaks. */
  function Squeeze(s: string): (r: string)
    ensures '\n' !in r
  {
    if s == [] then [] else (if s[0] == '\n' then [] else [s[0]]) + Squeeze(s[1..])
  }

  lemma {:induction false} RunEnds(s: string)
    ensures NewlineRun(s) < |s| ==> s[NewlineRun(s)] != '\n'
    ensures forall k :: 0 <= k < NewlineRun(s) ==> s[k] == '\n'
  {
    if s != [] && s[0] == '\n' {
      RunEnds(s[1..]);
    }
  }

  /** A run of three or more shrinks to two; a shorter run is kept. */
  lemma {:induction false} CollapseHead(s: string)
    ensures NewlineRun(Collapse(s)) == if NewlineRun(s) >= 3 then 2 else NewlineRun(s)
    decreases |s|
  {
    if s != [] {
      var n := NewlineRun(s);
      if n >= 3 {
        RunEnds(s);
        CollapseHead(s[n..]);
        var rest := Collapse(s[n..]);
        assert NewlineRun(rest) == 0;
        assert ("\n\n" + rest)[1..] == "\n" + rest;
        assert ("\n" + rest)[1..] == rest;
      } else {
        CollapseHead(s[1..]);
        assert ([s[0]] + Collapse(s[1..]))[1..] == Collapse(s[1..]);
      }
    }
  }

  lemma ConsNoTriple(c: char, t: string)
    requires NoTriple(t) && !(c == '\n' && NewlineRun(t) >= 2)
    ensures NoTriple([c] + t)
  {
    if |t| >= 2 && t[0] == '\n' && t[1] == '\n' {
      assert NewlineRun(t[1..]) >= 1;
      assert NewlineRun(t) >= 2;
    }
  }

  /** No run of three line breaks survives. */
  lemma {:induction false} CollapseNoTriple(s: string)
    ensures NoTriple(Collapse(s))
    decreases |s|
  {
    if s != [] {
      var n := NewlineRun(s);
      if n >= 3 {
        RunEnds(s);
        CollapseNoTriple(s[n..]);
        CollapseHead(s[n..]);
        var rest := Collapse(s[n..]);
        ConsNoTriple('\n', rest);
        ConsNoTriple('\n', "\n" + rest);
        assert "\n\n" + rest == ['\n'] + (['\n'] + rest);
      } else {
        CollapseNoTriple(s[1..]);
        CollapseHead(s[1..]);
        ConsNoTriple(s[0], Collapse(s[1..]));
      }
    }
  }

  /** Text without three line breaks in a row is left as it is. */
  lemma {:induction false} CollapseFixed(s: string)
    requires NoTriple(s)
    ensures Collapse(s) == s
    decreases |s|
  {
    if s != [] {
      RunEnds(s);
      if |s| >= 3 {
        assert !(s[0] == '\n' && s[1] == '\n' && s[2] == '\n');
      }
      assert NewlineRun(s) < 3;
      assert NoTriple(s[1..]) by {
        forall i | 0 <= i < |s[1..]| - 2
          ensures !(s[1..][i] == '\n' && s[1..][i + 1] == '\n' && s[1..][i + 2] == '\n')
        {
          assert s[1..][i] == s[i + 1];
        }
      }
      CollapseFixed(s[1..]);
      assert s == [s[0]] + s[1..];
    }
  }

  /** Collapsing twice is collapsing once. */
  lemma CollapseIdempotent(s: string)
    ensures Collapse(Collapse(s)) == Collapse(s)
  {
    CollapseNoTriple(s);
    CollapseFixed(Collapse(s));
  }

  lemma {:induction false} SqueezeRun(s: string, n: nat)
    requires n <= |s| && forall k :: 0 <= k < n ==> s[k] == '\n'
    ensures Squeeze(s) == Squeeze(s[n..])
    decreases n
  {
    if n > 0 {
      SqueezeRun(s[1..], n - 1);
      assert s[1..][n - 1..] == s[n..];
    }
  }

  /** Only line breaks are taken out: the other characters stay, in order. */
  lemma {:induction false} CollapseKeepsText(s: string)
    ensures Squeeze(Collapse(s)) == Squeeze(s)
    decreases |s|
  {
    if s != [] {
      var n := NewlineRun(s);
      if n >= 3 {
        RunEnds(s);
        SqueezeRun(s, n);
        CollapseKeepsText(s[n..]);
        var rest := Collapse(s[n..]);
        assert Squeeze("\n\n" + rest) == Squeeze(rest) by {
          assert ("\n\n" + rest)[1..] == "\n" + rest;
          assert ("\n" + rest)[1..] == rest;
        }
      } else {
        CollapseKeepsText(s[1..]);
        assert ([s[0]] + Collapse(s[1..]))[1..] == Collapse(s[1..]);
      }
    }
  }

  /** Collapsing keeps the front of a text up to its first line break. */
  lemma {:induction false} CollapsePrefix(u: string, q: string)
    requires '\n' !in q && |q| <= |Collapse(u)| && Collapse(u)[..|q|] == q
    ensures |q| <= |u| && u[..|q|] == q
    decreases |q|
  {
    if q != [] {
      CollapseHead(u);
      assert Collapse(u)[0] == q[0];
      assert u != [];
      assert NewlineRun(u) == 0;
      var rest := Collapse(u[1..]);
      assert Collapse(u) == [u[0]] + rest;
      assert rest[..|q| - 1] == q[1..];
      CollapsePrefix(u[1..], q[1..]);
      assert u[..|q|] == [u[0]] + u[1..][..|q| - 1];
    }
  }

  lemma ContainsSuffix(s: string, p: string, n: nat)
    requires n <= |s| && Contains(s[n..], p)
    ensures Contains(s, p)
  {
    var i: nat :| i <= |s[n..]| && OccursAt(s[n..], p, i);
    assert s[n + i..n + i + |p|] == s[n..][i..i + |p|];
    assert OccursAt(s, p, n + i);
  }

  lemma OccursInTail(h: string, t: string, p: string, i: nat)
    requires OccursAt(h + t, p, i) && |h| <= i
    ensures OccursAt(t, p, i - |h|)
  {
    assert t[i - |h|..i - |h| + |p|] == (h + t)[i..i + |p|];
  }

  /** An occurrence of a text without line breaks in the collapsed text, at a position
      where a run of line breaks was shortened, is impossible. */
  lemma NoNewAfterRun(s: string, p: string)
    requires p != [] && '\n' !in p && NewlineRun(s) >= 3 && !Contains(s, p)
    requires !Contains(Collapse(s[NewlineRun(s)..]), p)
    ensures !Contains(Collapse(s), p)
  {
    var r := Collapse(s);
    var rest := Collapse(s[NewlineRun(s)..]);
    assert r == "\n\n" + rest;
    forall i: nat | i <= |r|
      ensures !OccursAt(r, p, i)
    {
      if i < 2 {
        if i + |p| <= |r| {
          assert r[i..i + |p|][0] == '\n' != p[0];
        }
      } else {
        NotInTail("\n\n", rest, p, i);
      }
    }
  }

  /** An occurrence in `h + t` at or after `|h|` would be one in `t`. */
  lemma NotInTail(h: string, t: string, p: string, i: nat)
    requires |h| <= i && !OccursAt(t, p, i - |h|)
    ensures !OccursAt(h + t, p, i)
  {
    if i + |p| <= |h + t| {
      assert (h + t)[i..i + |p|] == t[i - |h|..i - |h| + |p|];
    }
  }

  /** Without an occurrence at the front of `[c] + u` there is none at the front of the
      collapsed form either. */
  lemma KeptFrontNot(s: string, p: string)
    requires s != [] && p != [] && '\n' !in p && !OccursAt(s, p, 0)
    ensures !OccursAt([s[0]] + Collapse(s[1..]), p, 0)
  {
    assert [s[0]] + s[1..] == s;
    if OccursAt([s[0]] + Collapse(s[1..]), p, 0) {
      KeptFront(s[0], s[1..], p);
    }
  }

  lemma KeptFront(c: char, u: string, p: string)
    requires p != [] && '\n' !in p && OccursAt([c] + Collapse(u), p, 0)
    ensures OccursAt([c] + u, p, 0)
  {
    var rest := Collapse(u);
    assert rest[..|p| - 1] == ([c] + rest)[1..|p|] == p[1..];
    CollapsePrefix(u, p[1..]);
    assert ([c] + u)[..|p|] == [c] + u[..|p| - 1];
  }

  /** The same, where a character was kept. */
  lemma NoNewAfterCopy(s: string, p: string)
    requires p != [] && '\n' !in p && s != [] && NewlineRun(s) < 3 && !Contains(s, p)
    requires !Contains(Collapse(s[1..]), p)
    ensures !Contains(Collapse(s), p)
  {
    var r := Collapse(s);
    var rest := Collapse(s[1..]);
    assert r == [s[0]] + rest;
    forall i: nat | i <= |r|
      ensures !OccursAt(r, p, i)
    {
      if i == 0 {
        KeptFrontNot(s, p);
      } else {
        NotInTail([s[0]], rest, p, i);
      }
    }
  }

  /** Collapsing creates no new occurrence of a text without line breaks. */
  lemma {:induction false} CollapseNoNew(s: string, p: string)
    requires p != [] && '\n' !in p && !Contains(s, p)
    ensures !Contains(Collapse(s), p)
    decreases |s|
  {
    if s != [] {
      var n := NewlineRun(s);
      if n >= 3 {
        if Contains(s[n..], p) {
          ContainsSuffix(s, p, n);
        }
        CollapseNoNew(s[n..], p);
        NoNewAfterRun(s, p);
      } else {
        if Contains(s[1..], p) {
          ContainsSuffix(s, p, 1);
        }
        CollapseNoNew(s[1..], p);
        NoNewAfterCopy(s, p);
      }
    }
  }

  /** An occurrence of a text without line breaks in the collapsed text comes from one in
      the original, no earlier. */
  lemma {:induction false} CollapseOccurs(u: string, p: string, i: nat)
    requires p != [] && '\n' !in p && OccursAt(Collapse(u), p, i)
    ensures exists k: nat :: i <= k && OccursAt(u, p, k)
    decreases |u|
  {
    var n := NewlineRun(u);
    if n >= 3 {
      RunOccurs(u, p, i);
      CollapseOccurs(u[n..], p, i - 2);
      var k: nat :| i - 2 <= k && OccursAt(u[n..], p, k);
      ShiftBy(u, n, p, k);
    } else if i == 0 {
      var rest := Collapse(u[1..]);
      assert Collapse(u) == [u[0]] + rest;
      KeptFront(u[0], u[1..], p);
      assert [u[0]] + u[1..] == u;
    } else {
      CopyOccurs(u, p, i);
      CollapseOccurs(u[1..], p, i - 1);
      var k: nat :| i - 1 <= k && OccursAt(u[1..], p, k);
      ShiftUp(u, p, k);
    }
  }

  /** An occurrence in the collapse of a long run of line breaks lies past the two kept ones. */
  lemma RunOccurs(u: string, p: string, i: nat)
    requires p != [] && '\n' !in p && OccursAt(Collapse(u), p, i) && NewlineRun(u) >= 3
    ensures i >= 2 && OccursAt(Collapse(u[NewlineRun(u)..]), p, i - 2)
  {
    var rest := Collapse(u[NewlineRun(u)..]);
    assert Collapse(u) == "\n\n" + rest;
    assert Collapse(u)[i] == p[0];
    OccursInTail("\n\n", rest, p, i);
  }

  /** An occurrence past the first character of a copied one lies in the collapse of the rest. */
  lemma CopyOccurs(u: string, p: string, i: nat)
    requires OccursAt(Collapse(u), p, i) && NewlineRun(u) < 3 && i > 0
    ensures u != [] && OccursAt(Collapse(u[1..]), p, i - 1)
  {
    var rest := Collapse(u[1..]);
    assert Collapse(u) == [u[0]] + rest;
    OccursInTail([u[0]], rest, p, i);
  }

  /** Collapsing creates no complete block. */
  lemma {:induction false} CollapseBlock(t: string, start: string, end: string)
    requires start != [] && '\n' !in start && end != [] && '\n' !in end
    ensures HasBlock(Collapse(t), start, end) ==> HasBlock(t, start, end)
    decreases |t|
  {
    if t != [] && HasBlock(Collapse(t), start, end) {
      var n := NewlineRun(t);
      if n >= 3 {
        CollapseBlock(t[n..], start, end);
        assert Collapse(t) == "\n\n" + Collapse(t[n..]);
        BlockAfterRun(t, n, start, end);
      } else {
        CollapseBlock(t[1..], start, end);
        assert Collapse(t) == [t[0]] + Collapse(t[1..]);
        BlockAfterCopy(t, start, end);
      }
    }
  }

  /** A block in a collapsed run followed by the rest comes from the rest. */
  lemma BlockAfterRun(t: string, n: nat, start: string, end: string)
    requires start != [] && '\n' !in start && end != [] && '\n' !in end && n <= |t|
    requires HasBlock(Collapse(t[n..]), start, end) ==> HasBlock(t[n..], start, end)
    requires HasBlock("\n\n" + Collapse(t[n..]), start, end)
    ensures HasBlock(t, start, end)
  {
    var rest := Collapse(t[n..]);
    var c := "\n\n" + rest;
    var i: nat, j: nat :| OccursAt(c, start, i) && i + |start| <= j && OccursAt(c, end, j);
    assert c[i] == start[0];
    OccursInTail("\n\n", rest, start, i);
    OccursInTail("\n\n", rest, end, j);
    assert HasBlock(rest, start, end);
    var i': nat, j': nat :| OccursAt(t[n..], start, i') && i' + |start| <= j' && OccursAt(t[n..], end, j');
    ShiftBy(t, n, start, i');
    ShiftBy(t, n, end, j');
  }

  /** A block in a kept character followed by the collapsed rest comes from `t`. */
  lemma BlockAfterCopy(t: string, start: string, end: string)
    requires start != [] && '\n' !in start && end != [] && '\n' !in end && t != []
    requires HasBlock(Collapse(t[1..]), start, end) ==> HasBlock(t[1..], start, end)
    requires HasBlock([t[0]] + Collapse(t[1..]), start, end)
    ensures HasBlock(t, start, end)
  {
    var rest := Collapse(t[1..]);
    var c := [t[0]] + rest;
    var i: nat, j: nat :| OccursAt(c, start, i) && i + |start| <= j && OccursAt(c, end, j);
    OccursInTail([t[0]], rest, end, j);
    if i == 0 {
      KeptFront(t[0], t[1..], start);
      assert [t[0]] + t[1..] == t;
      CollapseOccurs(t[1..], end, j - 1);
      var k: nat :| j - 1 <= k && OccursAt(t[1..], end, k);
      ShiftUp(t, end, k);
    } else {
      OccursInTail([t[0]], rest, start, i);
      assert HasBlock(rest, start, end);
      var i': nat, j': nat :| OccursAt(t[1..], start, i') && i' + |start| <= j' && OccursAt(t[1..], end, j');
      ShiftUp(t, start, i');
      ShiftUp(t, end, j');
    }
  }

  lemma ShiftBy(s: string, n: nat, p: string, i: nat)
    requires n <= |s| && OccursAt(s[n..], p, i)
    ensures OccursAt(s, p, n + i)
  {
    assert s[n + i..n + i + |p|] == s[n..][i..i + |p|];
  }
}
