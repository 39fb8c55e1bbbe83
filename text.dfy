/**
 * The string operations the service relies on, with the semantics of the
 * languages it is written in: Python's `str.replace` (every occurrence,
 * left to right, non-overlapping), `str.split` / JavaScript's
 * `String.prototype.split` with a non-empty separator, the
 * case-sensitive `endswith` / `endsWith` suffix test, and the line-end
 * translation of Python's text-mode reads.
 */
module Text {
  import opened Wrappers

  /** `p` occurs in `s` starting at index `i`. */
  predicate MatchAt(s: string, p: string, i: nat)
  {
    i + |p| <= |s| && s[i..i + |p|] == p
  }

  predicate Contains(s: string, p: string)
  {
    exists i: nat | i <= |s| :: MatchAt(s, p, i)
  }

  /** Python's `s.endswith(suffix)` and JavaScript's `s.endsWith(suffix)`: exact, case-sensitive. */
  predicate EndsWith(s: string, suffix: string)
  {
    |suffix| <= |s| && s[|s| - |suffix|..] == suffix
  }

  /** The suffix test holds exactly when `s` is some string followed by `suffix`. */
  lemma EndsWithIsConcat(s: string, suffix: string)
    ensures EndsWith(s, suffix) <==> exists t :: s == t + suffix
  {
    if EndsWith(s, suffix) {
      var t := s[..|s| - |suffix|];
      assert s == t + suffix;
    }
    if exists t :: s == t + suffix {
      var t :| s == t + suffix;
      assert s[|s| - |suffix|..] == suffix;
    }
  }

  /** Matches in `s[1..]` are the matches of `s` shifted one place left. */
  lemma MatchTail(s: string, p: string)
    requires |s| > 0
    ensures forall j: nat :: MatchAt(s[1..], p, j) ==> MatchAt(s, p, j + 1)
    ensures forall j: nat :: 0 < j && MatchAt(s, p, j) ==> MatchAt(s[1..], p, j - 1)
  {
    forall j: nat
      ensures MatchAt(s[1..], p, j) <==> MatchAt(s, p, j + 1)
    {
      if j + |p| <= |s| - 1 {
        assert s[1..][j..j + |p|] == s[j + 1..j + 1 + |p|];
      }
    }
    forall j: nat | 0 < j
      ensures MatchAt(s, p, j) ==> MatchAt(s[1..], p, j - 1)
    {
      var i: nat := j - 1;
      assert MatchAt(s[1..], p, i) <==> MatchAt(s, p, i + 1);
    }
  }

  /** The leftmost occurrence of `p` in `s` (Python's `str.find`, as `None` for -1). */
  function Find(s: string, p: string): (o: Option<nat>)
    requires p != []
    ensures o.Some? ==> MatchAt(s, p, o.value)
    ensures o.Some? ==> forall j: nat :: j < o.value ==> !MatchAt(s, p, j)
    ensures o.None? ==> !Contains(s, p)
    decreases |s|
  {
    if |s| < |p| then None
    else if s[..|p|] == p then Some(0)
    else
      MatchTail(s, p);
      match Find(s[1..], p)
      case None => None
      case Some(i) => Some(i + 1)
  }

  /**
   * `s.split(sep)` for a non-empty separator: the pieces between the
   * occurrences of `sep`, found left to right without overlap.
   */
  function Split(s: string, sep: string): (parts: seq<string>)
    requires sep != []
    ensures |parts| >= 1
    decreases |s|
  {
    match Find(s, sep)
    case None => [s]
    case Some(i) => [s[..i]] + Split(s[i + |sep|..], sep)
  }

  /** `sep.join(parts)`. */
  function Join(parts: seq<string>, sep: string): string
  {
    if |parts| == 0 then []
    else if |parts| == 1 then parts[0]
    else parts[0] + sep + Join(parts[1..], sep)
  }

  lemma JoinCons(x: string, rest: seq<string>, sep: string)
    requires |rest| >= 1
    ensures Join([x] + rest, sep) == x + sep + Join(rest, sep)
  {
    assert ([x] + rest)[1..] == rest;
  }

  /** `s.replace(p, r)`: scan left to right; at each occurrence emit `r` and skip past it. */
  function ReplaceAll(s: string, p: string, r: string): string
    requires p != []
    decreases |s|
  {
    if |s| < |p| then s
    else if s[..|p|] == p then r + ReplaceAll(s[|p|..], p, r)
    else [s[0]] + ReplaceAll(s[1..], p, r)
  }

  /** A prefix of `s` in which `p` does not start passes through the replacement unchanged. */
  lemma {:induction false} ReplaceAllSkip(s: string, p: string, r: string, i: nat)
    requires p != [] && i <= |s|
    requires forall j: nat :: j < i ==> !MatchAt(s, p, j)
    ensures ReplaceAll(s, p, r) == s[..i] + ReplaceAll(s[i..], p, r)
  {
    if i == 0 {
      assert s[i..] == s;
    } else if |s| < |p| {
      assert s[..i] + s[i..] == s;
    } else {
      assert !MatchAt(s, p, 0);
      assert ReplaceAll(s, p, r) == [s[0]] + ReplaceAll(s[1..], p, r);
      MatchTail(s, p);
      forall j: nat | j < i - 1
        ensures !MatchAt(s[1..], p, j)
      {
        assert !MatchAt(s, p, j + 1);
      }
      ReplaceAllSkip(s[1..], p, r, i - 1);
      assert s[1..][i - 1..] == s[i..];
      assert [s[0]] + s[1..][..i - 1] == s[..i];
    }
  }

  /**
   * The replacement is the reference definition `r.join(s.split(p))`: the
   * pieces between the leftmost non-overlapping occurrences of `p`, glued
   * back with `r`.
   */
  lemma {:induction false} ReplaceAllIsSplitJoin(s: string, p: string, r: string)
    requires p != []
    ensures ReplaceAll(s, p, r) == Join(Split(s, p), r)
    decreases |s|
  {
    match Find(s, p)
    case None =>
      ReplaceAllSkip(s, p, r, |s|);
      assert s[..|s|] == s;
      assert ReplaceAll(s[|s|..], p, r) == [];
    case Some(i) =>
      ReplaceAllSkip(s, p, r, i);
      var rest := s[i + |p|..];
      assert s[i..][..|p|] == p;
      assert s[i..][|p|..] == rest;
      ReplaceAllIsSplitJoin(rest, p, r);
      assert Split(s, p) == [s[..i]] + Split(rest, p);
  }

  /** One step of `Split`: the piece before the leftmost separator, then the split of the rest. */
  lemma SplitAtFirst(s: string, sep: string, i: nat)
    requires sep != [] && Find(s, sep) == Some(i)
    ensures i + |sep| <= |s|
    ensures s == s[..i] + sep + s[i + |sep|..]
    ensures Split(s, sep) == [s[..i]] + Split(s[i + |sep|..], sep)
  {
    assert s == s[..i] + s[i..i + |sep|] + s[i + |sep|..];
  }

  /** Splitting and re-joining with the same separator gives back the string. */
  lemma {:induction false} SplitJoinInverse(s: string, sep: string)
    requires sep != []
    ensures Join(Split(s, sep), sep) == s
    decreases |s|
  {
    var f := Find(s, sep);
    if f.Some? {
      var i := f.value;
      var rest := s[i + |sep|..];
      SplitAtFirst(s, sep, i);
      SplitJoinInverse(rest, sep);
      JoinCons(s[..i], Split(rest, sep), sep);
    }
  }

  /** A string without the one-character separator splits into itself alone. */
  lemma SplitNoChar(a: string, c: char)
    requires c !in a
    ensures Split(a, [c]) == [a]
  {
    forall j: nat | j <= |a|
      ensures !MatchAt(a, [c], j)
    {
      if j < |a| {
        assert a[j..j + 1][0] == a[j];
      }
    }
    assert !Contains(a, [c]);
  }

  /** With a one-character separator, the first piece runs up to the first separator. */
  lemma SplitAtChar(a: string, c: char, b: string)
    requires c !in a
    ensures Split(a + [c] + b, [c]) == [a] + Split(b, [c])
  {
    var s := a + [c] + b;
    assert s[|a|..|a| + 1] == [c];
    assert MatchAt(s, [c], |a|);
    var o := Find(s, [c]);
    assert o.Some?;
    var i := o.value;
    forall j: nat | j < |a|
      ensures !MatchAt(s, [c], j)
    {
      assert s[j..j + 1][0] == a[j];
    }
    assert s[..|a|] == a;
    assert s[|a| + 1..] == b;
  }

  /** Joining pieces free of a one-character separator and splitting again gives back the pieces. */
  lemma {:induction false} JoinSplitInverse(parts: seq<string>, c: char)
    requires |parts| >= 1
    requires forall k :: 0 <= k < |parts| ==> c !in parts[k]
    ensures Split(Join(parts, [c]), [c]) == parts
    decreases |parts|
  {
    if |parts| == 1 {
      SplitNoChar(parts[0], c);
    } else {
      var rest := parts[1..];
      assert [parts[0]] + rest == parts;
      JoinCons(parts[0], rest, [c]);
      JoinSplitInverse(rest, c);
      SplitAtChar(parts[0], c, Join(rest, [c]));
    }
  }

  /** No piece of a split contains the separator. */
  lemma {:induction false} SplitPiecesFree(s: string, sep: string)
    requires sep != []
    ensures forall k :: 0 <= k < |Split(s, sep)| ==> !Contains(Split(s, sep)[k], sep)
    decreases |s|
  {
    match Find(s, sep)
    case None =>
    case Some(i) =>
      var rest := s[i + |sep|..];
      SplitPiecesFree(rest, sep);
      var head := s[..i];
      forall j: nat | MatchAt(head, sep, j)
        ensures false
      {
        assert head[j..j + |sep|] == s[j..j + |sep|];
        assert MatchAt(s, sep, j);
      }
      assert Split(s, sep) == [head] + Split(rest, sep);
  }

  /** Text without an occurrence of `p` is left unchanged. */
  lemma ReplaceAllAbsent(s: string, p: string, r: string)
    requires p != [] && !Contains(s, p)
    ensures ReplaceAll(s, p, r) == s
  {
    ReplaceAllSkip(s, p, r, |s|);
    assert s[..|s|] == s;
  }

  /** Replacing a placeholder by itself is the identity. */
  lemma ReplaceAllSelf(s: string, p: string)
    requires p != []
    ensures ReplaceAll(s, p, p) == s
  {
    ReplaceAllIsSplitJoin(s, p, p);
    SplitJoinInverse(s, p);
  }

  /** Once the placeholder is gone, applying the same replacement again changes nothing. */
  lemma ReplaceAllIdempotent(s: string, p: string, r: string)
    requires p != [] && !Contains(ReplaceAll(s, p, r), p)
    ensures ReplaceAll(ReplaceAll(s, p, r), p, r) == ReplaceAll(s, p, r)
  {
    ReplaceAllAbsent(ReplaceAll(s, p, r), p, r);
  }

  /** A scan that does not find `p` at the front emits the first character and goes on with the rest. */
  lemma ReplaceAllNoMatchHead(s: string, p: string, r: string)
    requires p != [] && |s| > 0 && !MatchAt(s, p, 0)
    ensures ReplaceAll(s, p, r) == [s[0]] + ReplaceAll(s[1..], p, r)
  {
    if |s| < |p| {
      assert s == [s[0]] + s[1..];
    }
  }

  /**
   * The text Python's text mode reads with universal newlines, the
   * default of `open(path, 'r')`: every `\r\n` and every `\r` standing
   * alone comes back as `\n`.
   */
  function Universal(s: string): string
    decreases |s|
  {
    if s == [] then []
    else if s[0] == '\r' then "\n" + Universal(if |s| > 1 && s[1] == '\n' then s[2..] else s[1..])
    else [s[0]] + Universal(s[1..])
  }

  /** Text without a carriage return reads back as it is. */
  lemma {:induction false} UniversalNoCR(s: string)
    requires '\r' !in s
    ensures Universal(s) == s
    decreases |s|
  {
    if s != [] {
      assert s == [s[0]] + s[1..];
      UniversalNoCR(s[1..]);
    }
  }

  /** No carriage return survives the translation. */
  lemma {:induction false} UniversalClean(s: string)
    ensures '\r' !in Universal(s)
    decreases |s|
  {
    if s != [] {
      if s[0] == '\r' && |s| > 1 && s[1] == '\n' {
        UniversalClean(s[2..]);
      } else {
        UniversalClean(s[1..]);
      }
    }
  }

  /** Reading text that was read once already changes nothing more. */
  lemma UniversalIdempotent(s: string)
    ensures Universal(Universal(s)) == Universal(s)
  {
    UniversalClean(s);
    UniversalNoCR(Universal(s));
  }

  /** The translation is the reference `s.replace('\r\n', '\n').replace('\r', '\n')`. */
  lemma {:induction false} UniversalIsReplace(s: string)
    ensures Universal(s) == ReplaceAll(ReplaceAll(s, "\r\n", "\n"), "\r", "\n")
    decreases |s|
  {
    if s != [] {
      if s[0] == '\r' && |s| > 1 && s[1] == '\n' {
        var y := ReplaceAll(s[2..], "\r\n", "\n");
        assert s[..2] == "\r\n";
        assert ReplaceAll(s, "\r\n", "\n") == "\n" + y;
        ReplaceAllNoMatchHead("\n" + y, "\r", "\n");
        assert ("\n" + y)[1..] == y;
        UniversalIsReplace(s[2..]);
      } else {
        assert !MatchAt(s, "\r\n", 0);
        ReplaceAllNoMatchHead(s, "\r\n", "\n");
        var y := ReplaceAll(s[1..], "\r\n", "\n");
        var x := [s[0]] + y;
        assert x[1..] == y;
        UniversalIsReplace(s[1..]);
        if s[0] == '\r' {
          assert x[..1] == "\r";
        } else {
          ReplaceAllNoMatchHead(x, "\r", "\n");
        }
      }
    }
  }
}
