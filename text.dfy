/**
 * The JavaScript string operations the site's components rely on:
 * `startsWith`, `includes`, `indexOf`, `split`, `join`, `replace`,
 * `toLowerCase` and `trim`, each given a definition and the facts the
 * other modules need about it.
 */
module Text {
  import opened Wrappers

  /** `s.startsWith(p)`. */
  predicate StartsWith(s: string, p: string) {
    |p| <= |s| && s[..|p|] == p
  }

  /** `p` occurs in `s` starting at index `i`. */
  predicate OccursAt(s: string, p: string, i: int) {
    0 <= i && i + |p| <= |s| && s[i..i + |p|] == p
  }

  /** `s.indexOf(p)`, with -1 written as `None`: the first index where `p` occurs. */
  function IndexOf(s: string, p: string): (r: Option<nat>)
    ensures r.Some? ==> OccursAt(s, p, r.value)
    ensures r.Some? ==> forall j :: 0 <= j < r.value ==> !OccursAt(s, p, j)
    ensures r.None? ==> forall j :: 0 <= j ==> !OccursAt(s, p, j)
    decreases |s|
  {
    if StartsWith(s, p) then Some(0)
    else if |s| == 0 then None
    else
      ShiftOccurrence(s, p);
      match IndexOf(s[1..], p)
      case None => None
      case Some(k) => Some(k + 1)
  }

  /** An occurrence in `s` after index 0 is an occurrence in `s[1..]`, one index earlier. */
  lemma {:induction false} ShiftOccurrence(s: string, p: string)
    requires |s| > 0
    ensures forall j :: 1 <= j ==> (OccursAt(s, p, j) <==> OccursAt(s[1..], p, j - 1))
  {
    forall j | 1 <= j
      ensures OccursAt(s, p, j) <==> OccursAt(s[1..], p, j - 1)
    {
      if j + |p| <= |s| {
        assert s[1..][j - 1..j - 1 + |p|] == s[j..j + |p|];
      }
    }
  }

  /** `s.includes(p)`. */
  predicate Contains(s: string, p: string) {
    IndexOf(s, p).Some?
  }

  /** `parts.join(sep)`. */
  function Join(parts: seq<string>, sep: string): string {
    if |parts| == 0 then ""
    else if |parts| == 1 then parts[0]
    else parts[0] + sep + Join(parts[1..], sep)
  }

  /**
   * `s.split(sep)` for a non-empty separator: the pieces between the
   * non-overlapping occurrences of `sep`, found from left to right.
   */
  function Split(s: string, sep: string): (r: seq<string>)
    requires sep != []
    ensures |r| >= 1
    decreases |s|
  {
    match IndexOf(s, sep)
    case None => [s]
    case Some(i) => [s[..i]] + Split(s[i + |sep|..], sep)
  }

  /** No piece of a split contains the separator. */
  lemma {:induction false} SplitPiecesFree(s: string, sep: string)
    requires sep != []
    ensures forall k :: 0 <= k < |Split(s, sep)| ==> !Contains(Split(s, sep)[k], sep)
    decreases |s|
  {
    match IndexOf(s, sep)
    case None =>
    case Some(i) =>
      PrefixBeforeFirstHasNone(s, sep, i);
      SplitPiecesFree(s[i + |sep|..], sep);
  }

  /** The text before the first occurrence of `sep` does not contain `sep`. */
  lemma {:induction false} PrefixBeforeFirstHasNone(s: string, sep: string, i: nat)
    requires sep != [] && IndexOf(s, sep) == Some(i)
    ensures !Contains(s[..i], sep)
  {
    forall j | 0 <= j ensures !OccursAt(s[..i], sep, j) {
      if j + |sep| <= i {
        assert s[..i][j..j + |sep|] == s[j..j + |sep|];
        assert !OccursAt(s, sep, j);
      }
    }
  }

  /** Splitting and joining with the same separator gives back the text. */
  lemma {:induction false} SplitJoin(s: string, sep: string)
    requires sep != []
    ensures Join(Split(s, sep), sep) == s
    decreases |s|
  {
    match IndexOf(s, sep)
    case None =>
    case Some(i) =>
      var rest := s[i + |sep|..];
      SplitJoin(rest, sep);
      SplitUnfold(s, sep, i);
      JoinCons(s[..i], Split(rest, sep), sep);
      assert s[i..i + |sep|] == sep;
      assert s == s[..i] + sep + rest;
  }

  /** One step of `Split` at the first occurrence `i` of the separator. */
  lemma {:induction false} SplitUnfold(s: string, sep: string, i: nat)
    requires sep != [] && IndexOf(s, sep) == Some(i)
    ensures i + |sep| <= |s|
    ensures Split(s, sep) == [s[..i]] + Split(s[i + |sep|..], sep)
  {
    assert OccursAt(s, sep, i);
    SplitStep(s, sep, i);
  }

  /** `Split` takes its first piece up to the first separator. */
  lemma SplitStep(s: string, sep: string, i: nat)
    requires sep != [] && IndexOf(s, sep) == Some(i) && i + |sep| <= |s|
    ensures Split(s, sep) == [s[..i]] + Split(s[i + |sep|..], sep)
  {
  }

  lemma {:induction false} JoinCons(head: string, tail: seq<string>, sep: string)
    requires |tail| >= 1
    ensures Join([head] + tail, sep) == head + sep + Join(tail, sep)
  {
    assert ([head] + tail)[1..] == tail;
  }

  /**
   * The first piece of a split is the text before the first separator,
   * and the remaining pieces join back to the text after it.
   */
  lemma {:induction false} SplitAtFirst(s: string, sep: string, i: nat)
    requires sep != [] && IndexOf(s, sep) == Some(i)
    ensures |Split(s, sep)| >= 2
    ensures Split(s, sep)[0] == s[..i]
    ensures Join(Split(s, sep)[1..], sep) == s[i + |sep|..]
  {
    var r := Split(s, sep);
    assert r[1..] == Split(s[i + |sep|..], sep);
    SplitJoin(s[i + |sep|..], sep);
  }

  /** Text without the separator splits into itself alone. */
  lemma {:induction false} SplitWithout(s: string, sep: string)
    requires sep != [] && !Contains(s, sep)
    ensures Split(s, sep) == [s]
  {
  }

  /** `s.replace(p, rep)` with a string pattern: only the first occurrence is replaced. */
  function ReplaceFirst(s: string, p: string, rep: string): (r: string)
    ensures !Contains(s, p) ==> r == s
    ensures StartsWith(s, p) ==> r == rep + s[|p|..]
  {
    match IndexOf(s, p)
    case None => s
    case Some(i) => s[..i] + rep + s[i + |p|..]
  }

  /** `s.replace(/p/g, "")`: every non-overlapping occurrence, from the left, removed. */
  function RemoveAll(s: string, p: string): (r: string)
    requires p != []
    ensures !Contains(s, p) ==> r == s
  {
    Join(Split(s, p), "")
  }

  /**
   * Removing every `"**"` leaves none behind: a piece before a `"**"` never
   * ends in `'*'`, so no new `"**"` forms where the pieces meet.
   */
  lemma {:induction false} RemoveAllStarsLeavesNone(s: string)
    ensures !Contains(RemoveAll(s, "**"), "**")
    decreases |s|
  {
    var idx := IndexOf(s, "**");
    if idx.Some? {
      var i := idx.value;
      var rest := s[i + 2..];
      RemoveAllStarsLeavesNone(rest);
      RemoveAllUnfold(s, "**", i);
      PrefixBeforeFirstHasNone(s, "**", i);
      NoStarBeforeFirst(s, i);
      NoStarsAcross(s[..i], RemoveAll(rest, "**"));
    }
  }

  /** One step of `RemoveAll` at the first occurrence `i` of the pattern. */
  lemma {:induction false} RemoveAllUnfold(s: string, p: string, i: nat)
    requires p != [] && IndexOf(s, p) == Some(i)
    ensures i + |p| <= |s|
    ensures RemoveAll(s, p) == s[..i] + RemoveAll(s[i + |p|..], p)
  {
    SplitUnfold(s, p, i);
    JoinCons(s[..i], Split(s[i + |p|..], p), "");
  }

  /** The character just before the first `"**"` is not a `'*'`, or that `"**"` would start one earlier. */
  lemma {:induction false} NoStarBeforeFirst(s: string, i: nat)
    requires IndexOf(s, "**") == Some(i)
    ensures i == 0 || s[i - 1] != '*'
  {
    if i > 0 {
      assert !OccursAt(s, "**", i - 1);
      assert s[i - 1..i + 1] == [s[i - 1], s[i]];
      assert s[i..i + 2] == "**";
    }
  }

  /** `"**"` can only occur in `x + y` inside `x`, inside `y`, or across a `'*'` that ends `x`. */
  lemma {:induction false} NoStarsAcross(x: string, y: string)
    requires !Contains(x, "**") && !Contains(y, "**")
    requires x == [] || x[|x| - 1] != '*'
    ensures !Contains(x + y, "**")
  {
    forall j | 0 <= j ensures !OccursAt(x + y, "**", j) {
      if j + 2 <= |x| {
        assert x[j..j + 2] == (x + y)[j..j + 2];
        assert !OccursAt(x, "**", j);
      } else if j >= |x| && j + 2 <= |x + y| {
        assert y[j - |x|..j - |x| + 2] == (x + y)[j..j + 2];
        assert !OccursAt(y, "**", j - |x|);
      } else if j + 2 <= |x + y| {
        assert (x + y)[j] == x[|x| - 1];
        assert (x + y)[j..j + 2][0] == (x + y)[j];
      }
    }
  }

  /** `c.toLowerCase()` for the ASCII letters; every other character is kept. */
  function LowerChar(c: char): char {
    if 'A' <= c <= 'Z' then (c as int + 32) as char else c
  }

  /** `s.toLowerCase()`, character by character. */
  function ToLower(s: string): (r: string)
    ensures |r| == |s|
    ensures forall i :: 0 <= i < |s| ==> r[i] == LowerChar(s[i])
    ensures forall i :: 0 <= i < |r| ==> !('A' <= r[i] <= 'Z')
  {
    seq(|s|, i requires 0 <= i < |s| => LowerChar(s[i]))
  }

  /** Lower-casing twice is lower-casing once. */
  lemma {:induction false} ToLowerIdempotent(s: string)
    ensures ToLower(ToLower(s)) == ToLower(s)
  {
  }

  /**
   * The characters `String.prototype.trim` removes: the ECMAScript
   * WhiteSpace and LineTerminator code points.
   */
  predicate IsSpace(c: char) {
    || c == '\t' || c == '\n' || c == '\U{000B}' || c == '\U{000C}' || c == '\r'
    || c == ' ' || c == '\U{00A0}' || c == '\U{1680}'
    || ('\U{2000}' <= c <= '\U{200A}')
    || c == '\U{2028}' || c == '\U{2029}' || c == '\U{202F}' || c == '\U{205F}'
    || c == '\U{3000}' || c == '\U{FEFF}'
  }

  /** `s.trimStart()`: the suffix left after dropping leading white space. */
  function TrimStart(s: string): (r: string)
    ensures |r| <= |s| && r == s[|s| - |r|..]
    ensures forall j :: 0 <= j < |s| - |r| ==> IsSpace(s[j])
    ensures r == [] || !IsSpace(r[0])
  {
    if |s| > 0 && IsSpace(s[0]) then TrimStart(s[1..]) else s
  }

  /** `s.trimEnd()`: the prefix left after dropping trailing white space. */
  function TrimEnd(s: string): (r: string)
    ensures |r| <= |s| && r == s[..|r|]
    ensures forall j :: |r| <= j < |s| ==> IsSpace(s[j])
    ensures r == [] || !IsSpace(r[|r| - 1])
  {
    if |s| > 0 && IsSpace(s[|s| - 1]) then TrimEnd(s[..|s| - 1]) else s
  }

  /** `s.trim()`. */
  function Trim(s: string): string {
    TrimEnd(TrimStart(s))
  }

  /** Trimming leaves nothing exactly when every character is white space. */
  lemma {:induction false} TrimEmptyIff(s: string)
    ensures Trim(s) == [] <==> forall j :: 0 <= j < |s| ==> IsSpace(s[j])
  {
    var t := TrimStart(s);
    if t != [] {
      assert !IsSpace(t[0]);
      assert TrimEnd(t)[..1] == t[..1];
      assert !IsSpace(s[|s| - |t|]);
    }
  }

  /** Trimming text that neither begins nor ends with white space changes nothing. */
  lemma {:induction false} TrimTrimmed(s: string)
    requires s == [] || (!IsSpace(s[0]) && !IsSpace(s[|s| - 1]))
    ensures Trim(s) == s
  {
  }

  /** Trimming is idempotent. */
  lemma {:induction false} TrimIdempotent(s: string)
    ensures Trim(Trim(s)) == Trim(s)
  {
    var t := TrimStart(s);
    var r := TrimEnd(t);
    if r != [] {
      assert r[0] == t[0];
    }
    TrimTrimmed(r);
  }
}
