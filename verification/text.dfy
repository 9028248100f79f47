/**
 * The JavaScript string operations the dashboard relies on, restricted to
 * ASCII: `toLowerCase`, `includes`, `trim`, `replace` with a one-character
 * pattern (first occurrence only) and `join(", ")`, together with the
 * splitter that reads a joined tag list back.
 */
module Text {

  import opened Basics

  predicate IsUpper(c: char) {
    'A' <= c <= 'Z'
  }

  /** ASCII case folding of one character; every other character is kept. */
  function LowerChar(c: char): (d: char)
    ensures IsUpper(c) ==> d as int == c as int + 32
    ensures !IsUpper(c) ==> d == c
  {
    if IsUpper(c) then (c as int + 32) as char else c
  }

  /** `s.toLowerCase()` on ASCII letters. */
  function Lower(s: string): (r: string)
    ensures |r| == |s|
    ensures forall i :: 0 <= i < |s| ==> r[i] == LowerChar(s[i])
    ensures forall i :: 0 <= i < |r| ==> !IsUpper(r[i])
  {
    seq(|s|, i requires 0 <= i < |s| => LowerChar(s[i]))
  }

  /** `Lower` is determined character by character. */
  lemma LowerIs(p: string, q: string)
    requires |p| == |q| && forall i :: 0 <= i < |p| ==> LowerChar(p[i]) == q[i]
    ensures Lower(p) == q
  {
  }

  /** Lower-casing twice is lower-casing once. */
  lemma LowerIdempotent(s: string)
    ensures Lower(Lower(s)) == Lower(s)
  {
  }

  /** `t` occurs in `s` starting at index `i`. */
  predicate OccursAt(s: string, t: string, i: int) {
    0 <= i && i + |t| <= |s| && s[i..i + |t|] == t
  }

  /**
   * `s.includes(t)`: some position of `s` starts a copy of `t`. The empty
   * pattern is found everywhere; a found pattern is no longer than `s`, and
   * each of its characters occurs in `s`.
   */
  function Contains(s: string, t: string): (b: bool)
    ensures b <==> exists i :: OccursAt(s, t, i)
    ensures t == [] ==> b
    ensures b ==> |t| <= |s|
    ensures b ==> forall c :: c in t ==> c in s
  {
    var b := exists i | 0 <= i <= |s| - |t| :: OccursAt(s, t, i);
    assert t == [] ==> b by {
      if t == [] { assert OccursAt(s, t, 0); }
    }
    assert b ==> forall c :: c in t ==> c in s by {
      if b {
        var i :| 0 <= i <= |s| - |t| && OccursAt(s, t, i);
        forall c | c in t
          ensures c in s
        {
          var k :| 0 <= k < |t| && t[k] == c;
          assert s[i..i + |t|][k] == s[i + k];
        }
      }
    }
    b
  }

  /** A copy of `t` at a known position is found. */
  lemma ContainsAt(s: string, t: string, i: nat)
    requires i + |t| <= |s| && s[i..i + |t|] == t
    ensures Contains(s, t)
  {
    assert OccursAt(s, t, i);
  }

  /** The ASCII characters JavaScript's `trim` strips. */
  predicate IsSpace(c: char) {
    c == ' ' || c == '\t' || c == '\n' || c == '\r' || c == '\U{000B}' || c == '\U{000C}'
  }

  /** The number of leading spaces. */
  function LeadingSpaces(s: string): (n: nat)
    ensures n <= |s|
    ensures forall i :: 0 <= i < n ==> IsSpace(s[i])
    ensures n < |s| ==> !IsSpace(s[n])
    decreases |s|
  {
    if |s| > 0 && IsSpace(s[0]) then
      var n := LeadingSpaces(s[1..]);
      assert forall i :: 1 <= i < n + 1 ==> s[i] == s[1..][i - 1];
      n + 1
    else 0
  }

  /** Where the text ends once the trailing spaces after position `lo` are cut. */
  function TrailingStart(s: string, lo: nat): (m: nat)
    requires lo <= |s|
    ensures lo <= m <= |s|
    ensures forall i :: m <= i < |s| ==> IsSpace(s[i])
    ensures m > lo ==> !IsSpace(s[m - 1])
    decreases |s| - lo
  {
    if lo < |s| && IsSpace(s[|s| - 1]) then
      var m := TrailingStart(s[..|s| - 1], lo);
      assert forall i :: m <= i < |s| - 1 ==> s[i] == s[..|s| - 1][i];
      m
    else |s|
  }

  /**
   * `s.trim()`: the result is the piece of `s` left once its leading and
   * trailing white space is cut away, so it neither starts nor ends with
   * white space, and it is empty exactly when `s` is all white space.
   */
  function Trim(s: string): (r: string)
    ensures exists k :: OccursAt(s, r, k) &&
              (forall i :: 0 <= i < k ==> IsSpace(s[i])) &&
              (forall i :: k + |r| <= i < |s| ==> IsSpace(s[i]))
    ensures r == [] <==> forall i :: 0 <= i < |s| ==> IsSpace(s[i])
    ensures r != [] ==> !IsSpace(r[0]) && !IsSpace(r[|r| - 1])
  {
    var lo := LeadingSpaces(s);
    var hi := TrailingStart(s, lo);
    assert OccursAt(s, s[lo..hi], lo);
    assert lo < |s| ==> lo < hi;
    s[lo..hi]
  }

  /** `s.replace(from, to)` with a one-character pattern: only the first occurrence changes. */
  function ReplaceFirst(s: string, from: char, to: char): (r: string)
    ensures |r| == |s|
    ensures forall j :: 0 <= j < |s| && j != IndexOf(s, from) ==> r[j] == s[j]
    ensures from in s ==> r[IndexOf(s, from)] == to
  {
    var i := IndexOf(s, from);
    if i < 0 then s else s[..i] + [to] + s[i + 1..]
  }

  /** `xs.join(sep)`. */
  function Join(xs: seq<string>, sep: string): (r: string)
    ensures xs == [] ==> r == ""
    ensures |xs| == 1 ==> r == xs[0]
    decreases |xs|
  {
    if xs == [] then ""
    else if |xs| == 1 then xs[0]
    else xs[0] + sep + Join(xs[1..], sep)
  }

  /** Reads a `", "`-joined list back: the pieces between consecutive `", "` separators. */
  function SplitCommaSpace(s: string): (r: seq<string>)
    ensures |r| >= 1
    decreases |s|
  {
    if |s| == 0 then [""]
    else if |s| >= 2 && s[0] == ',' && s[1] == ' ' then [""] + SplitCommaSpace(s[2..])
    else
      var rest := SplitCommaSpace(s[1..]);
      [[s[0]] + rest[0]] + rest[1..]
  }

  /** A comma-free prefix is glued onto the first piece of what follows it. */
  lemma {:induction false} SplitCommaFreePrefix(x: string, z: string)
    requires ',' !in x
    ensures SplitCommaSpace(x + z) == [x + SplitCommaSpace(z)[0]] + SplitCommaSpace(z)[1..]
    decreases |x|
  {
    if x != [] {
      var s := x + z;
      assert s[0] == x[0] && s[1..] == x[1..] + z;
      SplitCommaFreePrefix(x[1..], z);
      assert [x[0]] + (x[1..] + SplitCommaSpace(z)[0]) == x + SplitCommaSpace(z)[0];
    } else {
      var parts := SplitCommaSpace(z);
      assert x + z == z;
      assert x + parts[0] == parts[0];
      assert [parts[0]] + parts[1..] == parts;
    }
  }

  /**
   * Joining tags with `", "` and splitting the result gives the tags back,
   * provided there is at least one tag and no tag contains a comma.
   */
  lemma {:induction false} JoinSplitRoundTrip(xs: seq<string>)
    requires |xs| >= 1
    requires forall i :: 0 <= i < |xs| ==> ',' !in xs[i]
    ensures SplitCommaSpace(Join(xs, ", ")) == xs
    decreases |xs|
  {
    if |xs| == 1 {
      SplitCommaFreePrefix(xs[0], "");
      assert xs[0] + "" == xs[0];
    } else {
      var tail := Join(xs[1..], ", ");
      JoinSplitRoundTrip(xs[1..]);
      var z := ", " + tail;
      assert SplitCommaSpace(z) == [""] + SplitCommaSpace(tail) by {
        assert z[2..] == tail;
      }
      assert Join(xs, ", ") == xs[0] + z;
      SplitCommaFreePrefix(xs[0], z);
      var parts := SplitCommaSpace(z);
      assert parts[0] == "" && parts[1..] == xs[1..];
      assert xs[0] + parts[0] == xs[0];
      assert xs == [xs[0]] + xs[1..];
    }
  }
}
