/**
 * The JavaScript string operations the two components rely on, stated on
 * `seq<char>`: `String.prototype.split` with a non-empty separator and an
 * index into its result, `startsWith`, and template interpolation of an
 * integer. `Join` inverts `Split`, and `ParseInt` inverts `IntToString`.
 */
module Text {
  import opened Wrappers

  /** `sep` occurs in `s` starting at index `i`. */
  predicate OccursAt(s: string, sep: string, i: nat)
  {
    i + |sep| <= |s| && s[i..i + |sep|] == sep
  }

  /** `sep` occurs somewhere in `s`. */
  predicate Contains(s: string, sep: string)
  {
    exists i: nat | i <= |s| :: OccursAt(s, sep, i)
  }

  /** `s.startsWith(prefix)`. */
  predicate StartsWith(s: string, prefix: string)
  {
    |prefix| <= |s| && s[..|prefix|] == prefix
  }

  /** The leftmost occurrence of `sep` in `s` at or after `from` (`s.indexOf(sep, from)`). */
  function FirstIndexFrom(s: string, sep: string, from: nat): (r: Option<nat>)
    ensures r.Some? ==> from <= r.value && OccursAt(s, sep, r.value)
    ensures forall j: nat :: from <= j && (r.None? || j < r.value) ==> !OccursAt(s, sep, j)
    decreases |s| - from
  {
    if from + |sep| > |s| then None
    else if OccursAt(s, sep, from) then Some(from)
    else FirstIndexFrom(s, sep, from + 1)
  }

  /** Inverse of `Split`: the parts glued together with `sep` between them (`parts.join(sep)`). */
  function Join(parts: seq<string>, sep: string): string
  {
    if |parts| == 0 then ""
    else if |parts| == 1 then parts[0]
    else parts[0] + sep + Join(parts[1..], sep)
  }

  lemma {:induction false} PrefixBeforeFirstHasNoSeparator(s: string, sep: string, i: nat)
    requires |sep| > 0 && i <= |s|
    requires forall j: nat :: j < i ==> !OccursAt(s, sep, j)
    ensures !Contains(s[..i], sep)
  {
    forall j: nat | OccursAt(s[..i], sep, j)
      ensures false
    {
      assert s[..i][j..j + |sep|] == s[j..j + |sep|];
      assert OccursAt(s, sep, j);
    }
  }

  /**
   * The piece before the leftmost separator, extended by all but the last
   * character of the separator, still holds no separator: no occurrence of
   * `sep` starts inside the piece.
   */
  lemma {:induction false} PieceEndsAtLeftmostSeparator(s: string, sep: string, i: nat)
    requires |sep| > 0
    requires FirstIndexFrom(s, sep, 0) == Some(i)
    ensures !Contains(s[..i] + sep[..|sep| - 1], sep)
  {
    var t := s[..i] + sep[..|sep| - 1];
    assert t == s[..i + |sep| - 1] by {
      assert s[i..i + |sep|] == sep;
      assert s[..i + |sep| - 1] == s[..i] + s[i..i + |sep| - 1];
    }
    forall j: nat | OccursAt(t, sep, j)
      ensures false
    {
      assert j < i;
      assert t[j..j + |sep|] == s[j..j + |sep|];
      assert OccursAt(s, sep, j);
    }
  }

  /**
   * `s.split(sep)` for a non-empty separator: the pieces between the
   * leftmost non-overlapping occurrences of `sep`, scanning left to right.
   * There is always at least one piece, no piece contains `sep`, and joining
   * the pieces with `sep` gives back `s`.
   */
  function Split(s: string, sep: string): (parts: seq<string>)
    requires |sep| > 0
    ensures |parts| >= 1
    ensures Join(parts, sep) == s
    ensures forall k :: 0 <= k < |parts| ==> !Contains(parts[k], sep)
    ensures forall k :: 0 <= k < |parts| - 1 ==> !Contains(parts[k] + sep[..|sep| - 1], sep)
    decreases |s|
  {
    match FirstIndexFrom(s, sep, 0)
    case None => [s]
    case Some(i) =>
      PrefixBeforeFirstHasNoSeparator(s, sep, i);
      PieceEndsAtLeftmostSeparator(s, sep, i);
      var rest := Split(s[i + |sep|..], sep);
      assert s[..i] + sep + s[i + |sep|..] == s by {
        assert s == s[..i] + s[i..i + |sep|] + s[i + |sep|..];
      }
      assert ([s[..i]] + rest)[1..] == rest;
      [s[..i]] + rest
  }

  /** `s.split(sep)[k]`: the k-th piece, or `undefined` past the last piece. */
  function Segment(s: string, sep: string, k: nat): (r: Option<string>)
    requires |sep| > 0
    ensures r.None? <==> k >= |Split(s, sep)|
    ensures r.Some? ==> !Contains(r.value, sep)
  {
    var parts := Split(s, sep);
    if k < |parts| then Some(parts[k]) else None
  }

  /** A string without `sep` splits into itself alone, so it has no second piece. */
  lemma NoSeparatorNoSecondSegment(s: string, sep: string)
    requires |sep| > 0
    ensures Segment(s, sep, 1).None? <==> !Contains(s, sep)
  {
  }

  /** When `s` is `sep` followed by a text free of `sep`, that text is the second piece. */
  lemma {:induction false} SecondSegmentAfterLeadingSeparator(sep: string, x: string)
    requires |sep| > 0
    requires !Contains(x, sep)
    ensures Segment(sep + x, sep, 1) == Some(x)
  {
    var s := sep + x;
    assert OccursAt(s, sep, 0);
    assert FirstIndexFrom(s, sep, 0) == Some(0);
    assert s[|sep|..] == x;
    assert FirstIndexFrom(x, sep, 0) == None;
    assert Split(x, sep) == [x];
    assert Split(s, sep) == [s[..0]] + [x];
  }

  /**
   * The second piece of `s.split('/')` for a path that starts with '/': the
   * longest run of characters after the leading '/' that holds no '/'.
   */
  lemma {:induction false} SecondSlashSegment(path: string)
    requires |path| > 0 && path[0] == '/'
    ensures Segment(path, "/", 1).Some?
    ensures var b := Segment(path, "/", 1).value;
      && '/' !in b
      && |b| + 1 <= |path| && path[..|b| + 1] == "/" + b
      && (|b| + 1 == |path| || path[|b| + 1] == '/')
  {
    assert OccursAt(path, "/", 0);
    assert FirstIndexFrom(path, "/", 0) == Some(0);
    var tail := path[1..];
    assert Split(path, "/") == [""] + Split(tail, "/");
    var b := Split(tail, "/")[0];
    assert Segment(path, "/", 1) == Some(b);
    var first := FirstIndexFrom(tail, "/", 0);
    if first.Some? {
      var i := first.value;
      assert b == tail[..i];
      assert tail[i..i + 1] == "/";
      assert path[i + 1] == tail[i];
    } else {
      assert b == tail;
    }
    assert path == "/" + tail;
    SlashFree(b);
  }

  /** A piece of a split on "/" holds no '/' character. */
  lemma SlashFree(b: string)
    requires !Contains(b, "/")
    ensures '/' !in b
  {
    if '/' in b {
      var j :| 0 <= j < |b| && b[j] == '/';
      assert OccursAt(b, "/", j);
    }
  }

  /** Decimal digit characters. */
  predicate IsDigits(s: string)
  {
    forall k :: 0 <= k < |s| ==> '0' <= s[k] <= '9'
  }

  function DigitChar(d: nat): (c: char)
    requires d < 10
    ensures '0' <= c <= '9'
  {
    "0123456789"[d]
  }

  function DigitValue(c: char): (d: nat)
    requires '0' <= c <= '9'
    ensures d < 10 && DigitChar(d) == c
  {
    (c as int - '0' as int)
  }

  /** The decimal numeral JavaScript prints for a non-negative integer. */
  function NatToString(n: nat): (r: string)
    ensures |r| >= 1 && IsDigits(r)
    ensures r[0] == '0' ==> n == 0
  {
    if n < 10 then [DigitChar(n)] else NatToString(n / 10) + [DigitChar(n % 10)]
  }

  /** `${i}` for an integer `i`: a minus sign before the numeral of a negative value. */
  function IntToString(i: int): (r: string)
    ensures |r| >= 1
    ensures '/' !in r
  {
    if i < 0 then "-" + NatToString(-i) else NatToString(i)
  }

  /** The value of a string of decimal digits. */
  function ParseDigits(s: string): nat
    requires IsDigits(s)
  {
    if |s| == 0 then 0 else ParseDigits(s[..|s| - 1]) * 10 + DigitValue(s[|s| - 1])
  }

  /** Reads an optionally signed decimal numeral back; `None` for anything else. */
  function ParseInt(s: string): (r: Option<int>)
    ensures r.Some? ==> |s| >= 1
  {
    if |s| >= 2 && s[0] == '-' && IsDigits(s[1..]) then Some(0 - ParseDigits(s[1..]) as int)
    else if |s| >= 1 && IsDigits(s) then Some(ParseDigits(s))
    else None
  }

  lemma {:induction false} ParseNatToString(n: nat)
    ensures ParseDigits(NatToString(n)) == n
  {
    if n >= 10 {
      ParseNatToString(n / 10);
      var s := NatToString(n);
      assert s[..|s| - 1] == NatToString(n / 10);
    }
  }

  /** Printing an integer and reading it back gives the same integer. */
  lemma {:induction false} ParseIntToString(i: int)
    ensures ParseInt(IntToString(i)) == Some(i)
  {
    var s := IntToString(i);
    if i < 0 {
      var t := NatToString(-i);
      ParseNatToString(-i);
      assert s == "-" + t;
      assert s[1..] == t;
      assert IsDigits(s[1..]);
    } else {
      ParseNatToString(i);
      assert s == NatToString(i);
      assert '0' <= s[0] <= '9';
    }
  }
}
