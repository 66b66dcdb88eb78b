/**
 * The parts of Kotlin's `String` API that the tag handling relies on:
 * whitespace as `Char.isWhitespace` defines it, `trim`, `isBlank`,
 * `split` on a one-character delimiter and `joinToString`.
 */
module KotlinText {

  /**
   * `Char.isWhitespace()`: the control characters U+0009..U+000D and
   * U+001C..U+001F, plus every Unicode space, line or paragraph separator.
   */
  predicate IsWhitespace(c: char)
  {
    var n := c as int;
    (0x09 <= n <= 0x0D) || (0x1C <= n <= 0x1F) || n == 0x20 || n == 0xA0 ||
    n == 0x1680 || (0x2000 <= n <= 0x200A) || n == 0x2028 || n == 0x2029 ||
    n == 0x202F || n == 0x205F || n == 0x3000
  }

  /** `s.isBlank()`: every character is whitespace (so the empty string is blank). */
  predicate IsBlank(s: string)
  {
    forall i :: 0 <= i < |s| ==> IsWhitespace(s[i])
  }

  /** Neither end of `s` is whitespace: `trim` leaves `s` as it is. */
  predicate IsTrimmed(s: string)
  {
    s == [] || (!IsWhitespace(s[0]) && !IsWhitespace(s[|s| - 1]))
  }

  /**
   * Where `trim` starts: the first index from `i` on whose character is not
   * whitespace, or `|s|` when there is none.
   */
  function TrimStartIndex(s: string, i: nat): (k: nat)
    requires i <= |s|
    ensures i <= k <= |s|
    ensures forall j :: i <= j < k ==> IsWhitespace(s[j])
    ensures k == |s| || !IsWhitespace(s[k])
    decreases |s| - i
  {
    if i < |s| && IsWhitespace(s[i]) then TrimStartIndex(s, i + 1) else i
  }

  /**
   * Where `trim` ends, scanning back from `j` but not past `start`: the
   * index just after the last character that is not whitespace.
   */
  function TrimEndIndex(s: string, start: nat, j: nat): (k: nat)
    requires start <= j <= |s|
    ensures start <= k <= j
    ensures forall m :: k <= m < j ==> IsWhitespace(s[m])
    ensures k == start || !IsWhitespace(s[k - 1])
    decreases j
  {
    if j > start && IsWhitespace(s[j - 1]) then TrimEndIndex(s, start, j - 1) else j
  }

  /**
   * `s.trim()`: the part of `s` between a blank head and a blank tail, with
   * no whitespace left at either end. Nothing is left exactly when `s` is
   * blank.
   */
  function Trim(s: string): (r: string)
    ensures exists b, e :: 0 <= b <= e <= |s| && r == s[b..e] && IsBlank(s[..b]) && IsBlank(s[e..])
    ensures IsTrimmed(r)
    ensures r == [] <==> IsBlank(s)
  {
    var b := TrimStartIndex(s, 0);
    var e := TrimEndIndex(s, b, |s|);
    assert e > b ==> s[b..e][0] == s[b] && s[b..e][e - b - 1] == s[e - 1];
    assert forall j :: 0 <= j < b ==> s[..b][j] == s[j];
    assert forall j :: 0 <= j < |s| - e ==> s[e..][j] == s[e + j];
    s[b..e]
  }

  /** A trimmed string is left as it is by `trim`. */
  lemma TrimmedIsFixed(s: string)
    requires IsTrimmed(s)
    ensures Trim(s) == s
  {
    assert s[0..|s|] == s;
  }

  /** Trimming twice is trimming once. */
  lemma TrimIdempotent(s: string)
    ensures Trim(Trim(s)) == Trim(s)
  {
    TrimmedIsFixed(Trim(s));
  }

  /** Whitespace in front of a trimmed, non-empty string is all that `trim` removes. */
  lemma TrimAfterBlank(w: string, s: string)
    requires IsBlank(w) && s != [] && IsTrimmed(s)
    ensures Trim(w + s) == s
  {
    var x := w + s;
    assert forall j :: 0 <= j < |w| ==> x[j] == w[j];
    assert x[|w|] == s[0] && x[|x| - 1] == s[|s| - 1];
    var b := TrimStartIndex(x, 0);
    assert b == |w|;
    assert TrimEndIndex(x, b, |x|) == |x|;
    assert x[|w|..] == s;
  }

  /** A character not in `s` is in no slice of `s`. */
  lemma NotInSlice(s: string, i: int, j: int, c: char)
    requires 0 <= i <= j <= |s| && c !in s
    ensures c !in s[i..j]
  {
    forall k | 0 <= k < j - i
      ensures s[i..j][k] != c
    {
      assert s[i..j][k] == s[i + k];
    }
  }

  /** A character not in `s` is not in `trim(s)`. */
  lemma TrimKeepsOut(s: string, c: char)
    requires c !in s
    ensures c !in Trim(s)
  {
    var b := TrimStartIndex(s, 0);
    NotInSlice(s, b, TrimEndIndex(s, b, |s|), c);
  }

  /**
   * `s.split(d)` for a one-character delimiter `d`: the pieces between the
   * delimiters, in order, empty pieces included (Kotlin keeps trailing
   * empty pieces, so `"".split(",")` is `[""]`).
   */
  function Split(s: string, d: char): (r: seq<string>)
    ensures |r| > 0
    ensures forall i :: 0 <= i < |r| ==> d !in r[i]
    decreases |s|
  {
    if s == [] then [[]]
    else
      var rest := Split(s[1..], d);
      if s[0] == d then [[]] + rest else [[s[0]] + rest[0]] + rest[1..]
  }

  /** `pieces.joinToString(sep)`: the pieces with `sep` between neighbours. */
  function Join(pieces: seq<string>, sep: string): string
  {
    if |pieces| == 0 then []
    else if |pieces| == 1 then pieces[0]
    else pieces[0] + sep + Join(pieces[1..], sep)
  }

  /**
   * Joining two non-empty lists of pieces one after the other is joining
   * each and putting `sep` between them.
   */
  lemma {:induction false} JoinAppend(a: seq<string>, b: seq<string>, sep: string)
    requires a != [] && b != []
    ensures Join(a + b, sep) == Join(a, sep) + sep + Join(b, sep)
    decreases |a|
  {
    if |a| > 1 {
      assert (a + b)[1..] == a[1..] + b;
      JoinAppend(a[1..], b, sep);
    } else {
      assert (a + b)[0] == a[0] && (a + b)[1..] == b;
    }
  }

  /** Joining the pieces of a split with the delimiter gives back the text. */
  lemma {:induction false} JoinSplit(s: string, d: char)
    ensures Join(Split(s, d), [d]) == s
    decreases |s|
  {
    if s != [] {
      var rest := Split(s[1..], d);
      JoinSplit(s[1..], d);
      if s[0] == d {
        assert Split(s, d)[1..] == rest;
      } else {
        var r := Split(s, d);
        if |rest| > 1 {
          assert r[1..] == rest[1..];
        }
      }
    }
  }

  /** A text in which `d` does not occur is one piece. */
  lemma {:induction false} SplitWithout(a: string, d: char)
    requires d !in a
    ensures Split(a, d) == [a]
    decreases |a|
  {
    if a != [] {
      SplitWithout(a[1..], d);
      assert [a[0]] + a[1..] == a;
    }
  }

  /** Text without `d` in front of `b` extends the first piece of `b`. */
  lemma {:induction false} SplitPrepend(a: string, b: string, d: char)
    requires d !in a
    ensures Split(a + b, d) == [a + Split(b, d)[0]] + Split(b, d)[1..]
    decreases |a|
  {
    var pb := Split(b, d);
    if a == [] {
      assert a + b == b && a + pb[0] == pb[0];
      assert [pb[0]] + pb[1..] == pb;
    } else {
      assert (a + b)[0] == a[0] && (a + b)[1..] == a[1..] + b;
      SplitPrepend(a[1..], b, d);
      var rest := Split(a[1..] + b, d);
      assert Split(a + b, d) == [[a[0]] + rest[0]] + rest[1..];
      assert [a[0]] + (a[1..] + pb[0]) == a + pb[0];
    }
  }

  /** The pieces `w + p` for every `p` in `ps`. */
  function PrefixEach(w: string, ps: seq<string>): (r: seq<string>)
    ensures |r| == |ps| && forall i :: 0 <= i < |ps| ==> r[i] == w + ps[i]
  {
    if ps == [] then [] else [w + ps[0]] + PrefixEach(w, ps[1..])
  }

  /**
   * Splitting `pieces.joinToString(d + w)` on `d` gives the first piece and
   * then `w` in front of every other one, when `d` occurs in none of them.
   */
  lemma {:induction false} SplitJoin(pieces: seq<string>, d: char, w: string)
    requires |pieces| > 0 && d !in w
    requires forall i :: 0 <= i < |pieces| ==> d !in pieces[i]
    ensures Split(Join(pieces, [d] + w), d) == [pieces[0]] + PrefixEach(w, pieces[1..])
    decreases |pieces|
  {
    var sep := [d] + w;
    if |pieces| == 1 {
      SplitWithout(pieces[0], d);
    } else {
      var tail := Join(pieces[1..], sep);
      var rest := PrefixEach(w, pieces[2..]);
      SplitJoin(pieces[1..], d, w);
      assert pieces[1..][1..] == pieces[2..];
      assert Split(tail, d) == [pieces[1]] + rest;
      SplitPrepend(w, tail, d);
      assert Split(w + tail, d) == [w + pieces[1]] + rest;
      var after := [d] + (w + tail);
      assert after[0] == d && after[1..] == w + tail;
      assert Split(after, d) == [[]] + Split(w + tail, d);
      assert Join(pieces, sep) == pieces[0] + after;
      SplitPrepend(pieces[0], after, d);
      assert pieces[0] + [] == pieces[0];
      assert PrefixEach(w, pieces[1..]) == [w + pieces[1]] + rest;
    }
  }
}
