/** String helpers standing for the JavaScript built-ins the UI relies on:
    ASCII `toLowerCase`, `includes`, `indexOf`, `split`/`pop`, `join`,
    `trim`, `String(n)` and the relational `<` on strings. */
module Text {
  import opened Wrappers

  // ---------------------------------------------------------------- case

  /** ASCII lower-casing of one character; every other character is kept. */
  function LowerChar(c: char): char {
    if 'A' <= c <= 'Z' then (c as int + 32) as char else c
  }

  function Lower(s: string): (r: string)
    ensures |r| == |s|
  {
    seq(|s|, i requires 0 <= i < |s| => LowerChar(s[i]))
  }

  // ---------------------------------------------------------- substrings

  /** `t` occurs in `s` starting at index `i`. */
  ghost predicate OccursAt(s: string, t: string, i: int) {
    0 <= i && i + |t| <= |s| && s[i..i + |t|] == t
  }

  predicate IsPrefix(p: string, s: string) {
    |p| <= |s| && s[..|p|] == p
  }

  /** `String.prototype.indexOf`: the first index at which `t` occurs. */
  function IndexOf(s: string, t: string): (r: Option<nat>)
    ensures r.Some? ==> OccursAt(s, t, r.value)
    ensures r.Some? ==> forall j :: 0 <= j < r.value ==> !OccursAt(s, t, j)
    ensures r.None? ==> forall j :: 0 <= j <= |s| ==> !OccursAt(s, t, j)
    decreases |s|
  {
    if IsPrefix(t, s) then Some(0)
    else if |s| == 0 then None
    else
      var rest := IndexOf(s[1..], t);
      ShiftOccurrence(s, t);
      match rest
      case None => None
      case Some(k) => Some(k + 1)
  }

  /** An occurrence in the tail is an occurrence one place later in `s`,
      and `IsPrefix` is an occurrence at 0. */
  lemma ShiftOccurrence(s: string, t: string)
    requires |s| > 0
    ensures IsPrefix(t, s) <==> OccursAt(s, t, 0)
    ensures forall j :: 1 <= j ==> (OccursAt(s, t, j) <==> OccursAt(s[1..], t, j - 1))
  {
    forall j | 1 <= j
      ensures OccursAt(s, t, j) <==> OccursAt(s[1..], t, j - 1)
    {
      if j + |t| <= |s| {
        assert s[1..][j - 1..j - 1 + |t|] == s[j..j + |t|];
      }
    }
  }

  /** `String.prototype.includes`. */
  predicate Contains(s: string, t: string) {
    IndexOf(s, t).Some?
  }

  /** `includes` holds exactly when some occurrence exists. */
  lemma ContainsIff(s: string, t: string)
    ensures Contains(s, t) <==> exists i :: OccursAt(s, t, i)
  {
  }

  /** The middle of a concatenation is included in it. */
  lemma ContainsInfix(a: string, b: string, c: string)
    ensures Contains(a + b + c, b)
  {
    assert (a + b + c)[|a|..|a| + |b|] == b;
    assert OccursAt(a + b + c, b, |a|);
  }

  /** Every string includes the empty string. */
  lemma ContainsEmpty(s: string)
    ensures Contains(s, "")
  {
    assert OccursAt(s, "", 0);
    ContainsIff(s, "");
  }

  // ----------------------------------------------------- split and join

  predicate NoneOf(s: string, seps: set<char>) {
    forall i :: 0 <= i < |s| ==> s[i] !in seps
  }

  /** `s.split(sep)` where `seps` is the set of separator characters
      (`split(/[\\/]/)` uses two). The lemmas below show that the pieces
      are separator-free, the first is the longest separator-free prefix
      and the last the longest separator-free suffix. */
  function Split(s: string, seps: set<char>): (r: seq<string>)
    ensures |r| >= 1
    decreases |s|
  {
    if |s| == 0 then [""]
    else
      var rest := Split(s[1..], seps);
      if s[0] in seps then [""] + rest
      else [[s[0]] + rest[0]] + rest[1..]
  }

  /** No piece contains a separator. */
  lemma {:induction false} SplitPiecesFree(s: string, seps: set<char>)
    ensures forall k :: 0 <= k < |Split(s, seps)| ==> NoneOf(Split(s, seps)[k], seps)
    decreases |s|
  {
    if |s| > 0 {
      var rest := Split(s[1..], seps);
      SplitPiecesFree(s[1..], seps);
      var r := Split(s, seps);
      forall k | 0 <= k < |r|
        ensures NoneOf(r[k], seps)
      {
        if s[0] in seps {
          if k > 0 {
            assert r[k] == rest[k - 1];
          }
        } else if k == 0 {
          assert NoneOf(rest[0], seps);
          assert r[0] == [s[0]] + rest[0];
        } else {
          assert r[k] == rest[k];
        }
      }
    }
  }

  /** The first piece is a prefix, followed by a separator when it is not
      the whole string. */
  lemma {:induction false} SplitFirstPiece(s: string, seps: set<char>)
    ensures var r := Split(s, seps);
            IsPrefix(r[0], s) && (|r[0]| < |s| ==> s[|r[0]|] in seps)
    decreases |s|
  {
    if |s| > 0 && s[0] !in seps {
      var t := s[1..];
      var rest := Split(t, seps);
      SplitFirstPiece(t, seps);
      var first := [s[0]] + rest[0];
      assert s[..|first|] == [s[0]] + t[..|rest[0]|];
    }
  }

  /** The last piece is a suffix, preceded by a separator when it is not the
      whole string; a single piece is the whole string. */
  lemma {:induction false} SplitLastPiece(s: string, seps: set<char>)
    ensures var r := Split(s, seps);
            var last := r[|r| - 1];
            && (|r| == 1 ==> r[0] == s)
            && (|r| > 1 ==> |last| < |s|)
            && |last| <= |s| && s[|s| - |last|..] == last
            && (|last| < |s| ==> s[|s| - |last| - 1] in seps)
    decreases |s|
  {
    if |s| > 0 {
      var t := s[1..];
      var rest := Split(t, seps);
      SplitLastPiece(t, seps);
      var last := rest[|rest| - 1];
      assert s[|s| - |last|..] == t[|t| - |last|..];
      var r := Split(s, seps);
      if s[0] in seps {
        assert r[|r| - 1] == last;
      } else if |rest| > 1 {
        assert r[|r| - 1] == last;
      } else {
        assert r == [[s[0]] + t];
        assert [s[0]] + t == s;
      }
    }
  }

  /** Inverse of `Split` for one separator: `parts.join(sep)`. */
  function Join(parts: seq<string>, sep: string): string
    decreases |parts|
  {
    if |parts| == 0 then ""
    else if |parts| == 1 then parts[0]
    else parts[0] + sep + Join(parts[1..], sep)
  }

  /** Prepending to the first piece prepends to the joined string. */
  lemma {:induction false} JoinPrependFirst(x: string, parts: seq<string>, sep: string)
    requires |parts| >= 1
    ensures Join([x + parts[0]] + parts[1..], sep) == x + Join(parts, sep)
  {
    var p := [x + parts[0]] + parts[1..];
    if |parts| > 1 {
      assert p[1..] == parts[1..];
    }
  }

  lemma ConsTail(s: string)
    requires |s| > 0
    ensures [s[0]] + s[1..] == s
  {
  }

  /** A leading separator contributes an empty first piece. */
  lemma {:induction false} JoinSplitLeadingSep(s: string, c: char)
    requires |s| > 0 && s[0] == c
    ensures Join(Split(s, {c}), [c]) == [c] + Join(Split(s[1..], {c}), [c])
  {
    SplitLeadingSep(s, c);
    var rest := Split(s[1..], {c});
    assert ([""] + rest)[1..] == rest;
  }

  lemma {:induction false} SplitLeadingSep(s: string, c: char)
    requires |s| > 0 && s[0] == c
    ensures Split(s, {c}) == [""] + Split(s[1..], {c})
  {
  }

  /** A leading non-separator extends the first piece. */
  lemma {:induction false} JoinSplitLeadingChar(s: string, c: char)
    requires |s| > 0 && s[0] != c
    ensures Join(Split(s, {c}), [c]) == [s[0]] + Join(Split(s[1..], {c}), [c])
  {
    var rest := Split(s[1..], {c});
    assert Split(s, {c}) == [[s[0]] + rest[0]] + rest[1..];
    JoinPrependFirst([s[0]], rest, [c]);
  }

  /** Splitting on one character and joining with it gives the string back. */
  lemma {:induction false} JoinSplit(s: string, c: char)
    ensures Join(Split(s, {c}), [c]) == s
    decreases |s|
  {
    if |s| > 0 {
      var tail := s[1..];
      JoinSplit(tail, c);
      if s[0] == c {
        JoinSplitLeadingSep(s, c);
      } else {
        JoinSplitLeadingChar(s, c);
      }
      ConsTail(s);
    }
  }

  /** Joining two non-empty lists is joining each and putting the separator
      between them. */
  lemma {:induction false} JoinAppend(a: seq<string>, b: seq<string>, sep: string)
    requires |a| > 0 && |b| > 0
    ensures Join(a + b, sep) == Join(a, sep) + sep + Join(b, sep)
    decreases |a|
  {
    assert (a + b)[0] == a[0];
    if |a| == 1 {
      assert (a + b)[1..] == b;
    } else {
      assert (a + b)[1..] == a[1..] + b;
      JoinAppend(a[1..], b, sep);
    }
  }

  /** A string without the separator is one piece. */
  lemma {:induction false} SplitNoSep(x: string, c: char)
    requires NoneOf(x, {c})
    ensures Split(x, {c}) == [x]
    decreases |x|
  {
    if |x| > 0 {
      SplitNoSep(x[1..], c);
      ConsTail(x);
    }
  }

  lemma {:induction false} SplitLeadingChar(s: string, c: char)
    requires |s| > 0 && s[0] != c
    ensures var rest := Split(s[1..], {c});
            Split(s, {c}) == [[s[0]] + rest[0]] + rest[1..]
  {
  }

  /** One step of `SplitPrefix`: a leading non-separator moves onto the
      first piece. */
  lemma {:induction false} SplitPrefixStep(x: string, s: string, c: char, p: seq<string>)
    requires |x| > 0 && x[0] != c && |p| >= 1
    requires Split(x[1..] + s, {c}) == [x[1..] + p[0]] + p[1..]
    ensures Split(x + s, {c}) == [x + p[0]] + p[1..]
  {
    ConsConcat(x, p[0]);
    ConsConcat(x, s);
    var xs := x + s;
    SplitLeadingChar(xs, c);
  }

  lemma ConsConcat(x: string, y: string)
    requires |x| > 0
    ensures [x[0]] + (x[1..] + y) == x + y
    ensures (x + y)[0] == x[0] && (x + y)[1..] == x[1..] + y
  {
  }

  lemma ConcatAssoc(x: string, y: string, z: string)
    ensures x + y + z == x + (y + z) && x + "" == x && (y + z)[|y|..] == z
  {
  }

  /** A separator-free prefix extends the first piece. */
  lemma {:induction false} SplitPrefix(x: string, s: string, c: char)
    requires NoneOf(x, {c})
    ensures var p := Split(s, {c});
            Split(x + s, {c}) == [x + p[0]] + p[1..]
    decreases |x|
  {
    var p := Split(s, {c});
    if |x| == 0 {
      assert x + s == s;
      assert x + p[0] == p[0];
      assert p == [p[0]] + p[1..];
    } else {
      SplitPrefix(x[1..], s, c);
      SplitPrefixStep(x, s, c, p);
    }
  }

  /** One step of `SplitJoin`: a first piece and a separator in front of a
      joined rest split off as that piece. */
  lemma {:induction false} SplitJoinStep(first: string, j: string, c: char)
    requires NoneOf(first, {c})
    ensures Split(first + [c] + j, {c}) == [first] + Split(j, {c})
  {
    var t := [c] + j;
    ConcatAssoc(first, [c], j);
    ConcatAssoc([c], j, "");
    SplitLeadingSep(t, c);
    SplitPrefix(first, t, c);
  }

  /** Joining separator-free pieces and splitting again gives the pieces
      back: the other half of the round trip. */
  lemma {:induction false} SplitJoin(parts: seq<string>, c: char)
    requires |parts| >= 1
    requires forall i :: 0 <= i < |parts| ==> NoneOf(parts[i], {c})
    ensures Split(Join(parts, [c]), {c}) == parts
    decreases |parts|
  {
    if |parts| == 1 {
      SplitNoSep(parts[0], c);
    } else {
      SplitJoin(parts[1..], c);
      SplitJoinStep(parts[0], Join(parts[1..], [c]), c);
      assert parts == [parts[0]] + parts[1..];
    }
  }

  /** The last `split` piece, i.e. `split(...).pop()`. */
  function LastSegment(s: string, seps: set<char>): (r: string)
    ensures NoneOf(r, seps)
    ensures |r| <= |s| && s[|s| - |r|..] == r
    ensures |r| < |s| ==> s[|s| - |r| - 1] in seps
  {
    SplitPiecesFree(s, seps);
    SplitLastPiece(s, seps);
    var parts := Split(s, seps);
    parts[|parts| - 1]
  }

  /** The three properties of `LastSegment` determine it: it is the part
      after the last separator, or the whole string when there is none. */
  lemma LastSegmentUnique(s: string, seps: set<char>, r: string)
    requires NoneOf(r, seps)
    requires |r| <= |s| && s[|s| - |r|..] == r
    requires |r| < |s| ==> s[|s| - |r| - 1] in seps
    ensures r == LastSegment(s, seps)
  {
  }

  /** `path.split(/[\\/]/).pop() || fallback`: the last path segment, or
      `fallback` when that segment is empty. */
  function Basename(path: string, fallback: string): (r: string)
    ensures var seg := LastSegment(path, {'/', '\\'});
            r == if seg == "" then fallback else seg
  {
    var seg := LastSegment(path, {'/', '\\'});
    if seg == "" then fallback else seg
  }

  /** A path that does not end in a separator is named by its last segment,
      which is a non-empty suffix free of separators. */
  lemma BasenameOfFilePath(path: string, fallback: string)
    requires |path| > 0 && path[|path| - 1] != '/' && path[|path| - 1] != '\\'
    ensures var r := Basename(path, fallback);
            r != "" && NoneOf(r, {'/', '\\'}) && |r| <= |path| && path[|path| - |r|..] == r
  {
  }

  // ------------------------------------------------------------- trimming

  /** ECMAScript WhiteSpace and LineTerminator code points, which
      `String.prototype.trim` strips. */
  predicate IsJsSpace(c: char) {
    c in {'\t', '\n', '\U{000B}', '\U{000C}', '\r', ' ', '\U{00A0}', '\U{1680}',
          '\U{2000}', '\U{2001}', '\U{2002}', '\U{2003}', '\U{2004}', '\U{2005}',
          '\U{2006}', '\U{2007}', '\U{2008}', '\U{2009}', '\U{200A}', '\U{2028}',
          '\U{2029}', '\U{202F}', '\U{205F}', '\U{3000}', '\U{FEFF}'}
  }

  predicate AllSpace(s: string) {
    forall i :: 0 <= i < |s| ==> IsJsSpace(s[i])
  }

  function TrimStart(s: string): (r: string)
    ensures |r| <= |s| && r == s[|s| - |r|..]
    ensures AllSpace(s[..|s| - |r|])
    ensures |r| > 0 ==> !IsJsSpace(r[0])
    decreases |s|
  {
    if |s| > 0 && IsJsSpace(s[0]) then TrimStart(s[1..]) else s
  }

  function TrimEnd(s: string): (r: string)
    ensures |r| <= |s| && r == s[..|r|]
    ensures AllSpace(s[|r|..])
    ensures |r| > 0 ==> !IsJsSpace(r[|r| - 1])
    decreases |s|
  {
    if |s| > 0 && IsJsSpace(s[|s| - 1]) then TrimEnd(s[..|s| - 1]) else s
  }

  /** `r` sits in `s` at index `i` with only white space around it. */
  ghost predicate TrimmedAt(s: string, r: string, i: int) {
    0 <= i <= |s| - |r| && s[i..i + |r|] == r && AllSpace(s[..i]) && AllSpace(s[i + |r|..])
  }

  /** `String.prototype.trim`: `s` with leading and trailing white space
      removed; what remains is a contiguous piece of `s`. */
  function Trim(s: string): (r: string)
    ensures exists i :: TrimmedAt(s, r, i)
    ensures |r| > 0 ==> !IsJsSpace(r[0]) && !IsJsSpace(r[|r| - 1])
  {
    var t := TrimStart(s);
    var r := TrimEnd(t);
    var i := |s| - |t|;
    assert s[i..][..|r|] == s[i..i + |r|];
    assert s[i..][|r|..] == s[i + |r|..];
    assert TrimmedAt(s, r, i);
    r
  }

  /** A string trims to nothing exactly when it is all white space. */
  lemma TrimEmptyIff(s: string)
    ensures Trim(s) == "" <==> AllSpace(s)
  {
    var i :| TrimmedAt(s, Trim(s), i);
    if Trim(s) == "" {
      forall k | 0 <= k < |s| ensures IsJsSpace(s[k]) {
        if k < i {
          assert s[..i][k] == s[k];
        } else {
          assert s[i..][k - i] == s[k];
        }
      }
    }
  }

  // -------------------------------------------------------------- numbers

  function DigitChar(d: nat): char
    requires d < 10
  {
    ('0' as int + d) as char
  }

  predicate IsDigit(c: char) {
    '0' <= c <= '9'
  }

  /** `String(n)` for a non-negative integer: its decimal digits. */
  function NatToString(n: nat): (r: string)
    ensures |r| >= 1
    ensures forall i :: 0 <= i < |r| ==> IsDigit(r[i])
    ensures |r| > 1 ==> r[0] != '0'
    decreases n
  {
    if n < 10 then [DigitChar(n)]
    else NatToString(n / 10) + [DigitChar(n % 10)]
  }

  /** Decimal value of a string of digits. */
  function DigitsValue(s: string): nat
    requires forall i :: 0 <= i < |s| ==> IsDigit(s[i])
    decreases |s|
  {
    if |s| == 0 then 0
    else
      assert IsDigit(s[|s| - 1]);
      10 * DigitsValue(s[..|s| - 1]) + (s[|s| - 1] as int - '0' as int)
  }

  /** `String(n)` is read back as `n`. */
  lemma {:induction false} NatToStringRoundTrip(n: nat)
    ensures DigitsValue(NatToString(n)) == n
    decreases n
  {
    if n >= 10 {
      NatToStringRoundTrip(n / 10);
      var s := NatToString(n);
      assert s[..|s| - 1] == NatToString(n / 10);
    }
  }

  /** `String(n)` for an integer that may be negative. */
  function IntToString(n: int): (r: string)
    ensures n < 0 <==> |r| > 0 && r[0] == '-'
  {
    if n < 0 then "-" + NatToString(-n) else NatToString(n)
  }

  // ------------------------------------------------------------ ordering

  /** JavaScript's `<` on two strings: lexicographic by character, a proper
      prefix ordering before its extensions. */
  predicate StrLess(a: string, b: string)
    decreases |a|
  {
    if |b| == 0 then false
    else if |a| == 0 then true
    else if a[0] != b[0] then a[0] < b[0]
    else StrLess(a[1..], b[1..])
  }

  /** `<` on strings is a strict total order: exactly one of `a < b`,
      `a == b`, `b < a` holds. */
  lemma {:induction false} StrLessTrichotomy(a: string, b: string)
    ensures !(StrLess(a, b) && StrLess(b, a))
    ensures !StrLess(a, b) && !StrLess(b, a) ==> a == b
    ensures a == b ==> !StrLess(a, b)
    decreases |a|
  {
    if |a| > 0 && |b| > 0 && a[0] == b[0] {
      StrLessTrichotomy(a[1..], b[1..]);
      assert a == [a[0]] + a[1..];
      assert b == [b[0]] + b[1..];
    }
  }

  lemma {:induction false} StrLessTransitive(a: string, b: string, c: string)
    requires StrLess(a, b) && StrLess(b, c)
    ensures StrLess(a, c)
    decreases |a|
  {
    if |a| > 0 && a[0] == b[0] && b[0] == c[0] {
      StrLessTransitive(a[1..], b[1..], c[1..]);
    }
  }
}
