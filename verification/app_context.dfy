/** The shared application context: the bounded activity log, translation
    with placeholder substitution, the fallback password generator, the
    mock login/logout and the vault list with its placeholder create and
    delete. Identifiers, timestamps and random draws are parameters, and
    every backend call is replaced by its outcome. */
module AppContext {
  import opened Wrappers
  import opened Text
  import opened Types
  import Seqs

  // --------------------------------------------------------- activity log

  /** `addLogEntry` keeps the new entry plus at most this many older ones. */
  const KeptOlderEntries := 199
  const LogCapacity := KeptOlderEntries + 1

  function MakeEntry(d: LogDraft, id: string, timestamp: int): LogEntry {
    LogEntry(id, timestamp, d.operation, d.details, d.status, d.targetFile,
             d.targetVault, d.algorithmUsed, d.errorDetails, d.username)
  }

  /** `addLogEntry`: the new entry goes to the head; the older entries follow
      in their previous order and only those beyond position 199 are lost. */
  function AddLogEntry(log: seq<LogEntry>, d: LogDraft, id: string, timestamp: int): (r: seq<LogEntry>)
    ensures 1 <= |r| <= LogCapacity
    ensures r[0] == MakeEntry(d, id, timestamp)
    ensures |r| == if |log| < LogCapacity then |log| + 1 else LogCapacity
    ensures forall i :: 0 <= i < |log| && i + 1 < |r| ==> r[i + 1] == log[i]
  {
    [MakeEntry(d, id, timestamp)] + (if |log| <= KeptOlderEntries then log else log[..KeptOlderEntries])
  }

  /** A draft together with the id and timestamp it is stamped with. */
  datatype Stamped = Stamped(draft: LogDraft, id: string, timestamp: int)

  /** The log after adding `adds` one after another, oldest first. */
  function AddAll(log: seq<LogEntry>, adds: seq<Stamped>): seq<LogEntry>
    decreases |adds|
  {
    if |adds| == 0 then log
    else
      var a := adds[|adds| - 1];
      AddLogEntry(AddAll(log, adds[..|adds| - 1]), a.draft, a.id, a.timestamp)
  }

  /** The entry made from the k-th most recent of `adds`. */
  function NewestAt(adds: seq<Stamped>, k: nat): LogEntry
    requires k < |adds|
  {
    var a := adds[|adds| - 1 - k];
    MakeEntry(a.draft, a.id, a.timestamp)
  }

  function Min(a: int, b: int): int {
    if a <= b then a else b
  }

  /** The newest-first property survives one more `addLogEntry`. */
  lemma AddOneKeepsNewestFirst(prev: seq<LogEntry>, init: seq<Stamped>, a: Stamped)
    requires |prev| <= LogCapacity && Min(|init|, LogCapacity) <= |prev|
    requires forall k :: 0 <= k < |init| && k < LogCapacity ==> prev[k] == NewestAt(init, k)
    ensures Min(|init| + 1, LogCapacity) <= |AddLogEntry(prev, a.draft, a.id, a.timestamp)|
    ensures forall k :: 0 <= k < |init| + 1 && k < LogCapacity ==>
              AddLogEntry(prev, a.draft, a.id, a.timestamp)[k] == NewestAt(init + [a], k)
  {
    var r := AddLogEntry(prev, a.draft, a.id, a.timestamp);
    var adds := init + [a];
    forall k | 0 <= k < |adds| && k < LogCapacity
      ensures r[k] == NewestAt(adds, k)
    {
      if k > 0 {
        assert NewestAt(init, k - 1) == NewestAt(adds, k);
      }
    }
  }

  /** However many entries are added, the log holds the last 200 of all
      entries ever added, and its head holds the most recent additions,
      newest first. */
  lemma {:induction false} AddAllNewestFirst(log: seq<LogEntry>, adds: seq<Stamped>)
    requires |log| <= LogCapacity
    ensures |AddAll(log, adds)| == Min(|log| + |adds|, LogCapacity)
    ensures forall k :: 0 <= k < |adds| && k < LogCapacity ==> AddAll(log, adds)[k] == NewestAt(adds, k)
    decreases |adds|
  {
    if |adds| > 0 {
      var init := adds[..|adds| - 1];
      var a := adds[|adds| - 1];
      AddAllNewestFirst(log, init);
      assert adds == init + [a];
      AddOneKeepsNewestFirst(AddAll(log, init), init, a);
    }
  }

  /** `clearActivityLog`: the log is emptied and the clearing itself logged. */
  function ClearActivityLog(id: string, timestamp: int): (r: seq<LogEntry>)
    ensures |r| == 1
    ensures r[0].operation == SettingsChange && r[0].status == Info
    ensures r[0].details == "Activity log cleared." && r[0].id == id && r[0].timestamp == timestamp
  {
    AddLogEntry([], Draft(SettingsChange, "Activity log cleared.", Info), id, timestamp)
  }

  /** Below capacity, adding entries only stacks them on top: the earlier
      log is the tail, unchanged. */
  lemma {:induction false} AddAllKeepsOlder(log: seq<LogEntry>, adds: seq<Stamped>)
    requires |log| + |adds| <= LogCapacity
    ensures |AddAll(log, adds)| == |log| + |adds|
    ensures AddAll(log, adds)[|adds|..] == log
    decreases |adds|
  {
    if |adds| > 0 {
      var init := adds[..|adds| - 1];
      AddAllKeepsOlder(log, init);
      var prev := AddAll(log, init);
      var a := adds[|adds| - 1];
      assert AddAll(log, adds) == [MakeEntry(a.draft, a.id, a.timestamp)] + prev;
      assert AddAll(log, adds)[|adds|..] == prev[|init|..];
    }
  }

  /** After a clear, the clearing entry stays the oldest one while the log
      fills up again. */
  lemma ClearEntryStaysOldest(id: string, timestamp: int, adds: seq<Stamped>)
    requires |adds| < LogCapacity
    ensures var log := AddAll(ClearActivityLog(id, timestamp), adds);
            |log| == |adds| + 1 && log[|adds|] == ClearActivityLog(id, timestamp)[0]
  {
    AddAllKeepsOlder(ClearActivityLog(id, timestamp), adds);
  }

  // ---------------------------------------------------------- translation

  /** The translation table and the current language. */
  datatype Locale = Locale(table: map<string, map<Language, string>>, language: Language)

  /** The table has a non-empty text for `key` in the current language. */
  predicate HasEntry(loc: Locale, key: string) {
    key in loc.table && loc.language in loc.table[key] && loc.table[key][loc.language] != ""
  }

  /** `TRANSLATIONS[key]?.[language] || key`: a missing or empty text falls
      back to the key itself. */
  function Lookup(loc: Locale, key: string): (r: string)
    ensures HasEntry(loc, key) ==> r == loc.table[key][loc.language]
    ensures !HasEntry(loc, key) ==> r == key
    ensures key != "" ==> r != ""
  {
    if key in loc.table && loc.language in loc.table[key] && loc.table[key][loc.language] != ""
    then loc.table[key][loc.language]
    else key
  }

  function Placeholder(i: nat): string {
    "{" + NatToString(i) + "}"
  }

  /** Replaces the first occurrence of `pat` by `rep`, inserted verbatim. */
  function ReplaceFirst(s: string, pat: string, rep: string): (r: string)
    ensures IndexOf(s, pat).None? ==> r == s
  {
    match IndexOf(s, pat)
    case None => s
    case Some(i) => s[..i] + rep + s[i + |pat|..]
  }

  /** Substitutes `args[i]` for the first `{i}`, for i = from, from+1, ...;
      a template holding none of these placeholders comes back unchanged. */
  function Substitute(s: string, args: seq<string>, from: nat): (r: string)
    ensures (forall k :: from <= k < |args| ==> !Contains(s, Placeholder(k))) ==> r == s
    decreases |args| - from
  {
    if from >= |args| then s
    else Substitute(ReplaceFirst(s, Placeholder(from), args[from]), args, from + 1)
  }

  /** `translate(key, ...args)`, with each argument inserted verbatim. */
  function Translate(loc: Locale, key: string, args: seq<string>): (r: string)
    ensures |args| == 0 ==> r == Lookup(loc, key)
    ensures |args| == 0 && !HasEntry(loc, key) ==> r == key
  {
    Substitute(Lookup(loc, key), args, 0)
  }

  /** A translation without arguments. */
  function T(loc: Locale, key: string): string {
    Translate(loc, key, [])
  }

  predicate NoChar(s: string, c: char) {
    forall i :: 0 <= i < |s| ==> s[i] != c
  }

  /** A template with no `{` has no placeholder, so substitution leaves it
      unchanged whatever the arguments. */
  lemma {:induction false} SubstituteWithoutPlaceholders(s: string, args: seq<string>, from: nat)
    requires NoChar(s, '{')
    ensures Substitute(s, args, from) == s
    decreases |args| - from
  {
    if from < |args| {
      var p := Placeholder(from);
      NoOccurrenceWithoutFirstChar(s, p);
      assert IndexOf(s, p).None?;
      SubstituteWithoutPlaceholders(s, args, from + 1);
    }
  }

  /** A string without the first character of `p` has no occurrence of it. */
  lemma NoOccurrenceWithoutFirstChar(s: string, p: string)
    requires |p| > 0 && NoChar(s, p[0])
    ensures forall j :: !OccursAt(s, p, j)
  {
    forall j | OccursAt(s, p, j) ensures s[j..j + |p|][0] == s[j] {
    }
  }

  /** One substitution step replaces exactly the first `{i}` and leaves the
      text before it and after it untouched. */
  lemma ReplaceFirstSpec(s: string, pat: string, rep: string)
    requires IndexOf(s, pat).Some?
    ensures var i := IndexOf(s, pat).value;
            var r := ReplaceFirst(s, pat, rep);
            && s[i..i + |pat|] == pat
            && (forall j :: 0 <= j < i ==> !OccursAt(s, pat, j))
            && r == s[..i] + rep + s[i + |pat|..]
  {
  }

  // ---------------------------- translation as written (see Findings)

  /** The replacement patterns `String.prototype.replace` interprets in a
      string replacement when the pattern is a string: `$$`, `$&`, `` $` ``
      and `$'`. Every other `$` is copied. */
  function ExpandReplacement(rep: string, matched: string, before: string, after: string): string
    decreases |rep|
  {
    if |rep| == 0 then ""
    else if rep[0] == '$' && |rep| >= 2 && rep[1] in {'$', '&', '`', '\''} then
      (if rep[1] == '$' then "$"
       else if rep[1] == '&' then matched
       else if rep[1] == '`' then before
       else after) + ExpandReplacement(rep[2..], matched, before, after)
    else [rep[0]] + ExpandReplacement(rep[1..], matched, before, after)
  }

  /** `s.replace(pat, rep)` as JavaScript evaluates it. */
  function ReplaceFirstAsWritten(s: string, pat: string, rep: string): string {
    match IndexOf(s, pat)
    case None => s
    case Some(i) => s[..i] + ExpandReplacement(rep, pat, s[..i], s[i + |pat|..]) + s[i + |pat|..]
  }

  function SubstituteAsWritten(s: string, args: seq<string>, from: nat): (r: string)
    ensures (forall k :: from <= k < |args| ==> !Contains(s, Placeholder(k))) ==> r == s
    decreases |args| - from
  {
    if from >= |args| then s
    else SubstituteAsWritten(ReplaceFirstAsWritten(s, Placeholder(from), args[from]), args, from + 1)
  }

  /** `translate` exactly as the context writes it. */
  function TranslateAsWritten(loc: Locale, key: string, args: seq<string>): (r: string)
    ensures |args| == 0 ==> r == Lookup(loc, key)
    ensures |args| == 0 && !HasEntry(loc, key) ==> r == key
  {
    SubstituteAsWritten(Lookup(loc, key), args, 0)
  }

  lemma {:induction false} ExpandWithoutDollar(rep: string, matched: string, before: string, after: string)
    requires NoChar(rep, '$')
    ensures ExpandReplacement(rep, matched, before, after) == rep
    decreases |rep|
  {
    if |rep| > 0 {
      ExpandWithoutDollar(rep[1..], matched, before, after);
      assert rep == [rep[0]] + rep[1..];
    }
  }

  lemma {:induction false} SubstituteAgrees(s: string, args: seq<string>, from: nat)
    requires forall k :: 0 <= k < |args| ==> NoChar(args[k], '$')
    ensures SubstituteAsWritten(s, args, from) == Substitute(s, args, from)
    decreases |args| - from
  {
    if from < |args| {
      var p := Placeholder(from);
      if IndexOf(s, p).Some? {
        var i := IndexOf(s, p).value;
        ExpandWithoutDollar(args[from], p, s[..i], s[i + |p|..]);
      }
      var next := ReplaceFirst(s, p, args[from]);
      assert ReplaceFirstAsWritten(s, p, args[from]) == next;
      assert Substitute(s, args, from) == Substitute(next, args, from + 1);
      assert SubstituteAsWritten(s, args, from) == SubstituteAsWritten(next, args, from + 1);
      SubstituteAgrees(next, args, from + 1);
    }
  }

  /** The as-written and the verbatim translation differ only on arguments
      containing `$`. */
  lemma TranslateAgreesWithoutDollar(loc: Locale, key: string, args: seq<string>)
    requires forall k :: 0 <= k < |args| ==> NoChar(args[k], '$')
    ensures TranslateAsWritten(loc, key, args) == Translate(loc, key, args)
  {
    SubstituteAgrees(Lookup(loc, key), args, 0);
  }

  // ------------------------------------------------------- placeholders

  /** `{i}` is a brace, the decimal digits of `i`, and a closing brace; no
      `{` follows the first character. */
  lemma PlaceholderShape(i: nat)
    ensures var p := Placeholder(i);
            && |p| == |NatToString(i)| + 2 && |p| >= 3
            && p[0] == '{' && p[|p| - 1] == '}'
            && p[1..|p| - 1] == NatToString(i)
            && (forall t :: 1 <= t < |p| - 1 ==> IsDigit(p[t]))
            && (forall t :: 1 <= t < |p| ==> p[t] != '{')
  {
    var p := Placeholder(i);
    var d := NatToString(i);
    forall t | 1 <= t < |p| - 1 ensures p[t] == d[t - 1] {
    }
  }

  /** An occurrence of `{j}` at `q` has its brace at `q` and no other brace. */
  lemma PlaceholderInterior(s: string, q: int, j: nat)
    requires OccursAt(s, Placeholder(j), q)
    ensures s[q] == '{'
    ensures forall t :: q < t < q + |Placeholder(j)| ==> s[t] != '{'
  {
    var p := Placeholder(j);
    PlaceholderShape(j);
    assert s[q..q + |p|] == p;
    forall t | q < t < q + |p| ensures s[t] != '{' {
      assert s[t] == p[t - q];
    }
    assert s[q] == p[0];
  }

  /** Two placeholders occurring at the same index are the same placeholder:
      the closing brace of the shorter would face a digit of the longer. */
  lemma PlaceholderAtSamePlace(s: string, q: int, j: nat, k: nat)
    requires OccursAt(s, Placeholder(j), q) && OccursAt(s, Placeholder(k), q)
    ensures j == k
  {
    var pj := Placeholder(j);
    var pk := Placeholder(k);
    PlaceholderShape(j);
    PlaceholderShape(k);
    assert forall t :: 0 <= t < |pj| ==> s[q + t] == pj[t] by {
      assert s[q..q + |pj|] == pj;
    }
    assert forall t :: 0 <= t < |pk| ==> s[q + t] == pk[t] by {
      assert s[q..q + |pk|] == pk;
    }
    // the last index both share holds `}` in one of them, so in both
    var m := (if |pj| < |pk| then |pj| else |pk|) - 1;
    assert pj[m] == s[q + m] == pk[m];
    assert |pj| == |pk|;
    assert pj == s[q..q + |pj|] == pk;
    assert NatToString(j) == NatToString(k);
    NatToStringRoundTrip(j);
    NatToStringRoundTrip(k);
  }

  /** An occurrence is found by `indexOf`. */
  lemma OccursContains(s: string, t: string, q: int)
    requires OccursAt(s, t, q)
    ensures Contains(s, t)
  {
  }

  /** Replacing one placeholder occurrence by any text keeps every
      occurrence of a different placeholder, shifted by the change in
      length when it lies after the replaced one. */
  lemma SpliceKeeps(s: string, p: nat, k: nat, j: nat, x: string, q: int)
    requires k != j && OccursAt(s, Placeholder(k), p) && OccursAt(s, Placeholder(j), q)
    ensures Contains(s[..p] + x + s[p + |Placeholder(k)|..], Placeholder(j))
  {
    var pk := Placeholder(k);
    var pj := Placeholder(j);
    var r := s[..p] + x + s[p + |pk|..];
    PlaceholderInterior(s, p, k);
    PlaceholderInterior(s, q, j);
    if q == p {
      PlaceholderAtSamePlace(s, q, j, k);
    } else if q < p {
      assert q + |pj| <= p;
      assert r[q..q + |pj|] == s[q..q + |pj|];
      OccursContains(r, pj, q);
    } else {
      assert p + |pk| <= q;
      var u := s[p + |pk|..];
      var q' := q + |x| - |pk|;
      assert r == (s[..p] + x) + u;
      assert r[q'..q' + |pj|] == u[q - p - |pk|..q - p - |pk| + |pj|] == s[q..q + |pj|];
      OccursContains(r, pj, q');
    }
  }

  /** A substitution step for `{k}` keeps every other placeholder. */
  lemma ReplaceKeepsOthers(s: string, k: nat, j: nat, x: string)
    requires k != j && Contains(s, Placeholder(j))
    ensures Contains(ReplaceFirst(s, Placeholder(k), x), Placeholder(j))
  {
    var pk := Placeholder(k);
    if IndexOf(s, pk).Some? {
      var p := IndexOf(s, pk).value;
      assert ReplaceFirst(s, pk, x) == s[..p] + x + s[p + |pk|..];
      SpliceKeeps(s, p, k, j, x, IndexOf(s, Placeholder(j)).value);
    }
  }

  /** The as-written step for `{k}` keeps every other placeholder too. */
  lemma ReplaceAsWrittenKeepsOthers(s: string, k: nat, j: nat, x: string)
    requires k != j && Contains(s, Placeholder(j))
    ensures Contains(ReplaceFirstAsWritten(s, Placeholder(k), x), Placeholder(j))
  {
    var pk := Placeholder(k);
    if IndexOf(s, pk).Some? {
      var p := IndexOf(s, pk).value;
      var e := ExpandReplacement(x, pk, s[..p], s[p + |pk|..]);
      assert ReplaceFirstAsWritten(s, pk, x) == s[..p] + e + s[p + |pk|..];
      SpliceKeeps(s, p, k, j, e, IndexOf(s, Placeholder(j)).value);
    }
  }

  /** A placeholder no step targets survives the whole substitution. */
  lemma {:induction false} SubstituteKeepsUnmatched(s: string, args: seq<string>, from: nat, j: nat)
    requires j < from || j >= |args|
    requires Contains(s, Placeholder(j))
    ensures Contains(Substitute(s, args, from), Placeholder(j))
    decreases |args| - from
  {
    if from < |args| {
      ReplaceKeepsOthers(s, from, j, args[from]);
      SubstituteKeepsUnmatched(ReplaceFirst(s, Placeholder(from), args[from]), args, from + 1, j);
    }
  }

  lemma {:induction false} SubstituteAsWrittenKeepsUnmatched(s: string, args: seq<string>, from: nat, j: nat)
    requires j < from || j >= |args|
    requires Contains(s, Placeholder(j))
    ensures Contains(SubstituteAsWritten(s, args, from), Placeholder(j))
    decreases |args| - from
  {
    if from < |args| {
      ReplaceAsWrittenKeepsOthers(s, from, j, args[from]);
      SubstituteAsWrittenKeepsUnmatched(ReplaceFirstAsWritten(s, Placeholder(from), args[from]), args, from + 1, j);
    }
  }

  /** A placeholder `{j}` with no argument at index `j` is shown as it is,
      whatever the arguments contain. */
  lemma TranslateKeepsUnmatched(loc: Locale, key: string, args: seq<string>, j: nat)
    requires j >= |args| && Contains(Lookup(loc, key), Placeholder(j))
    ensures Contains(Translate(loc, key, args), Placeholder(j))
    ensures Contains(TranslateAsWritten(loc, key, args), Placeholder(j))
  {
    SubstituteKeepsUnmatched(Lookup(loc, key), args, 0, j);
    SubstituteAsWrittenKeepsUnmatched(Lookup(loc, key), args, 0, j);
  }

  /** Every `{` of `s` opens a copy of `{i}`. */
  ghost predicate BracesOpen(s: string, i: nat) {
    forall q :: 0 <= q < |s| && s[q] == '{' ==> OccursAt(s, Placeholder(i), q)
  }

  lemma BracesConcat(a: string, b: string, i: nat)
    requires BracesOpen(a, i) && BracesOpen(b, i)
    ensures BracesOpen(a + b, i)
  {
    var p := Placeholder(i);
    forall q | 0 <= q < |a + b| && (a + b)[q] == '{' ensures OccursAt(a + b, p, q) {
      if q < |a| {
        assert OccursAt(a, p, q);
        assert (a + b)[q..q + |p|] == a[q..q + |p|];
      } else {
        assert OccursAt(b, p, q - |a|);
        assert (a + b)[q..q + |p|] == b[q - |a|..q - |a| + |p|];
      }
    }
  }

  lemma BracesOfPlaceholder(i: nat)
    ensures BracesOpen(Placeholder(i), i)
  {
    var p := Placeholder(i);
    PlaceholderShape(i);
    assert p[0..|p|] == p;
  }

  /** Without `{` in the argument or around the match, the only braces an
      expansion can hold are copies of the matched `{i}`. */
  lemma {:induction false} ExpandBraces(rep: string, i: nat, before: string, after: string)
    requires NoChar(rep, '{') && NoChar(before, '{') && NoChar(after, '{')
    ensures BracesOpen(ExpandReplacement(rep, Placeholder(i), before, after), i)
    decreases |rep|
  {
    if |rep| > 0 {
      var m := Placeholder(i);
      if rep[0] == '$' && |rep| >= 2 && rep[1] in {'$', '&', '`', '\''} {
        ExpandBraces(rep[2..], i, before, after);
        var piece := if rep[1] == '$' then "$" else if rep[1] == '&' then m else if rep[1] == '`' then before else after;
        if rep[1] == '&' {
          BracesOfPlaceholder(i);
        }
        BracesConcat(piece, ExpandReplacement(rep[2..], m, before, after), i);
      } else {
        ExpandBraces(rep[1..], i, before, after);
        BracesConcat([rep[0]], ExpandReplacement(rep[1..], m, before, after), i);
      }
    }
  }

  /** Where every brace opens `{i}`, no other placeholder occurs. */
  lemma MissesOtherPlaceholders(s: string, i: nat, k: nat)
    requires BracesOpen(s, i) && k != i
    ensures !Contains(s, Placeholder(k))
  {
    if Contains(s, Placeholder(k)) {
      var q := IndexOf(s, Placeholder(k)).value;
      PlaceholderInterior(s, q, k);
      PlaceholderAtSamePlace(s, q, i, k);
    }
  }

  /** After a brace-free prefix, the first `{i}` is the one right after it. */
  lemma FirstCopyAt(t0: string, t1: string, i: nat)
    requires NoChar(t0, '{')
    ensures IndexOf(t0 + Placeholder(i) + t1, Placeholder(i)) == Some(|t0|)
  {
    var s := t0 + Placeholder(i) + t1;
    var p := Placeholder(i);
    assert s[|t0|..|t0| + |p|] == p;
    assert OccursAt(s, p, |t0|);
    assert forall j :: 0 <= j < |t0| ==> s[j] == t0[j];
    var v := IndexOf(s, p).value;
    PlaceholderInterior(s, v, i);
  }

  /** Steps whose placeholder is absent are skipped. */
  lemma {:induction false} SubstituteSkips(s: string, args: seq<string>, from: nat, to: nat)
    requires from <= to <= |args|
    requires forall k :: from <= k < to ==> !Contains(s, Placeholder(k))
    ensures Substitute(s, args, from) == Substitute(s, args, to)
    decreases |args| - from
  {
    if from < to {
      assert !Contains(s, Placeholder(from));
      assert ReplaceFirst(s, Placeholder(from), args[from]) == s;
      assert Substitute(s, args, from) == Substitute(s, args, from + 1);
      SubstituteSkips(s, args, from + 1, to);
    }
  }

  lemma {:induction false} SubstituteAsWrittenSkips(s: string, args: seq<string>, from: nat, to: nat)
    requires from <= to <= |args|
    requires forall k :: from <= k < to ==> !Contains(s, Placeholder(k))
    ensures SubstituteAsWritten(s, args, from) == SubstituteAsWritten(s, args, to)
    decreases |args| - from
  {
    if from < to {
      assert !Contains(s, Placeholder(from));
      assert ReplaceFirstAsWritten(s, Placeholder(from), args[from]) == s;
      assert SubstituteAsWritten(s, args, from) == SubstituteAsWritten(s, args, from + 1);
      SubstituteAsWrittenSkips(s, args, from + 1, to);
    }
  }

  /** In a template `t0{i}t1` with no other brace, every brace opens `{i}`
      and no earlier placeholder occurs. */
  lemma SinglePlaceholderTemplate(t0: string, t1: string, i: nat)
    requires NoChar(t0, '{') && NoChar(t1, '{')
    ensures BracesOpen(t0 + Placeholder(i) + t1, i)
    ensures forall k :: 0 <= k < i ==> !Contains(t0 + Placeholder(i) + t1, Placeholder(k))
  {
    var s := t0 + Placeholder(i) + t1;
    BracesOfPlaceholder(i);
    BracesConcat(t0, Placeholder(i), i);
    BracesConcat(t0 + Placeholder(i), t1, i);
    forall k | 0 <= k < i ensures !Contains(s, Placeholder(k)) {
      MissesOtherPlaceholders(s, i, k);
    }
  }

  /** A template with one placeholder `{i}` and no other brace: the verbatim
      translation puts `args[i]` in its place; every other argument has
      nothing to replace. */
  lemma TranslateFillsPlaceholder(loc: Locale, key: string, args: seq<string>, t0: string, t1: string, i: nat)
    requires i < |args| && Lookup(loc, key) == t0 + Placeholder(i) + t1
    requires NoChar(t0, '{') && NoChar(t1, '{') && NoChar(args[i], '{')
    ensures Translate(loc, key, args) == t0 + args[i] + t1
  {
    var p := Placeholder(i);
    var s := t0 + p + t1;
    SinglePlaceholderTemplate(t0, t1, i);
    SubstituteSkips(s, args, 0, i);
    FirstCopyAt(t0, t1, i);
    assert s[..|t0|] == t0 && s[|t0| + |p|..] == t1;
    var v := t0 + args[i] + t1;
    assert ReplaceFirst(s, p, args[i]) == v;
    assert Substitute(s, args, i) == Substitute(v, args, i + 1);
    assert NoChar(v, '{');
    SubstituteWithoutPlaceholders(v, args, i + 1);
  }

  /** The same template as written: `{i}` is replaced by the expansion of
      `args[i]`, and the copies of `{i}` that `$&` may bring match no later
      argument. */
  lemma TranslateAsWrittenFillsPlaceholder(loc: Locale, key: string, args: seq<string>, t0: string, t1: string, i: nat)
    requires i < |args| && Lookup(loc, key) == t0 + Placeholder(i) + t1
    requires NoChar(t0, '{') && NoChar(t1, '{') && NoChar(args[i], '{')
    ensures TranslateAsWritten(loc, key, args) == t0 + ExpandReplacement(args[i], Placeholder(i), t0, t1) + t1
  {
    var p := Placeholder(i);
    var s := t0 + p + t1;
    SinglePlaceholderTemplate(t0, t1, i);
    SubstituteAsWrittenSkips(s, args, 0, i);
    FirstCopyAt(t0, t1, i);
    assert s[..|t0|] == t0 && s[|t0| + |p|..] == t1;
    var e := ExpandReplacement(args[i], p, t0, t1);
    var w := t0 + e + t1;
    assert ReplaceFirstAsWritten(s, p, args[i]) == w;
    assert SubstituteAsWritten(s, args, i) == SubstituteAsWritten(w, args, i + 1);
    ExpandBraces(args[i], i, t0, t1);
    BracesConcat(t0, e, i);
    BracesConcat(t0 + e, t1, i);
    forall k | i + 1 <= k < |args| ensures !Contains(w, Placeholder(k)) {
      MissesOtherPlaceholders(w, i, k);
    }
  }

  lemma FirstPlaceholderIn(s: string)
    requires s == "Hi {0}"
    ensures Placeholder(0) == "{0}"
    ensures IndexOf(s, "{0}") == Some(3)
  {
    assert NatToString(0) == "0";
    var p := "{0}";
    assert s[..3][0] != p[0] && s[1..][..3][0] != p[0] && s[2..][..3][0] != p[0];
    assert !IsPrefix(p, s) && !IsPrefix(p, s[1..]) && !IsPrefix(p, s[2..]);
    assert IsPrefix(p, s[3..]);
    assert s[1..][1..] == s[2..];
    assert s[2..][1..] == s[3..];
    assert IndexOf(s[3..], p) == Some(0);
    assert IndexOf(s[2..], p) == Some(1);
    assert IndexOf(s[1..], p) == Some(2);
  }

  lemma ExpandExample(before: string, after: string)
    ensures ExpandReplacement("a$&b", "{0}", before, after) == "a{0}b"
  {
    var rep := "a$&b";
    assert rep[1..] == "$&b" && rep[1..][2..] == "b";
    assert ExpandReplacement("", "{0}", before, after) == "";
    assert ExpandReplacement("b", "{0}", before, after) == "b";
    assert ExpandReplacement("$&b", "{0}", before, after) == "{0}b";
  }

  /** In `Hi {0}` the placeholder is replaced by the expansion of `rep`. */
  lemma ReplaceInGreeting(rep: string)
    ensures ReplaceFirstAsWritten("Hi {0}", "{0}", rep) == "Hi " + ExpandReplacement(rep, "{0}", "Hi ", "")
  {
    var s := "Hi {0}";
    FirstPlaceholderIn(s);
    assert s[..3] == "Hi " && s[6..] == "";
  }

  lemma ReplaceExampleAsWritten()
    ensures ReplaceFirstAsWritten("Hi {0}", "{0}", "a$&b") == "Hi a{0}b"
  {
    ReplaceInGreeting("a$&b");
    ExpandExample("Hi ", "");
    assert "Hi " + "a{0}b" == "Hi a{0}b";
  }

  lemma ReplaceExampleVerbatim()
    ensures ReplaceFirst("Hi {0}", "{0}", "a$&b") == "Hi a$&b"
  {
    var s := "Hi {0}";
    FirstPlaceholderIn(s);
    assert s[..3] == "Hi " && s[6..] == "";
  }

  /** A user named `a$&b` greeted through the template `Hi {0}`: the code as
      written shows `Hi a{0}b`, the verbatim substitution `Hi a$&b`. */
  lemma DollarInArgumentIsExpanded()
    ensures var loc := Locale(map["welcomeBack" := map[English := "Hi {0}"]], English);
            && TranslateAsWritten(loc, "welcomeBack", ["a$&b"]) == "Hi a{0}b"
            && Translate(loc, "welcomeBack", ["a$&b"]) == "Hi a$&b"
  {
    var loc := Locale(map["welcomeBack" := map[English := "Hi {0}"]], English);
    var args := ["a$&b"];
    assert Lookup(loc, "welcomeBack") == "Hi {0}";
    FirstPlaceholderIn("Hi {0}");
    ReplaceExampleAsWritten();
    ReplaceExampleVerbatim();
    assert SubstituteAsWritten("Hi {0}", args, 0) == SubstituteAsWritten("Hi a{0}b", args, 1);
    assert Substitute("Hi {0}", args, 0) == Substitute("Hi a$&b", args, 1);
  }

  // ------------------------------------------------- password generation

  const LowercaseChars := "abcdefghijklmnopqrstuvwxyz"
  const UppercaseChars := "ABCDEFGHIJKLMNOPQRSTUVWXYZ"
  const DigitChars := "0123456789"
  const SymbolChars := "!@#$%^&*()_+-=[]{}|;:,.<>?"

  /** The fallback charset: the enabled classes in the order lower, upper,
      digits, symbols, or the lower-case letters when none is enabled. */
  function Charset(o: PasswordOptions): (r: string)
    ensures |r| > 0
    ensures NoClassEnabled(o) ==> r == LowercaseChars
  {
    var c := (if o.includeLowercase then LowercaseChars else "")
           + (if o.includeUppercase then UppercaseChars else "")
           + (if o.includeNumbers then DigitChars else "")
           + (if o.includeSymbols then SymbolChars else "");
    if c == "" then LowercaseChars else c
  }

  predicate NoClassEnabled(o: PasswordOptions) {
    !o.includeLowercase && !o.includeUppercase && !o.includeNumbers && !o.includeSymbols
  }

  /** A character is in the charset exactly when its class is enabled, with
      lower case standing in when no class is. */
  lemma CharsetMembership(o: PasswordOptions, ch: char)
    ensures ch in Charset(o) <==>
              ((o.includeLowercase || NoClassEnabled(o)) && ch in LowercaseChars)
              || (o.includeUppercase && ch in UppercaseChars)
              || (o.includeNumbers && ch in DigitChars)
              || (o.includeSymbols && ch in SymbolChars)
  {
  }

  /** The fallback `generatePassword`: `draws[i]` stands for the random
      index `Math.floor(Math.random() * charset.length)` of the i-th
      character, reduced into the charset. */
  method GeneratePasswordFallback(o: PasswordOptions, draws: seq<nat>) returns (pw: string)
    requires |draws| >= o.length
    ensures |pw| == if o.length < 0 then 0 else o.length
    ensures forall i :: 0 <= i < |pw| ==> pw[i] in Charset(o)
    ensures forall i :: 0 <= i < |pw| ==> pw[i] == Charset(o)[draws[i] % |Charset(o)|]
  {
    var charset := Charset(o);
    pw := "";
    var i := 0;
    while i < o.length
      invariant 0 <= i && (o.length >= 0 ==> i <= o.length)
      invariant o.length < 0 ==> i == 0
      invariant |pw| == i
      invariant forall k :: 0 <= k < i ==> pw[k] == charset[draws[k] % |charset|]
    {
      pw := pw + [charset[draws[i] % |charset|]];
      i := i + 1;
    }
  }

  /** `generatePassword`: the backend's key when it offers a generator,
      otherwise the fallback. */
  method GeneratePassword(o: PasswordOptions, backend: Option<string>, draws: seq<nat>) returns (pw: string)
    requires |draws| >= o.length
    ensures backend.Some? ==> pw == backend.value
    ensures backend.None? ==> |pw| == (if o.length < 0 then 0 else o.length)
    ensures backend.None? ==> forall i :: 0 <= i < |pw| ==> pw[i] in Charset(o)
  {
    if backend.Some? {
      pw := backend.value;
    } else {
      pw := GeneratePasswordFallback(o, draws);
    }
  }

  // ------------------------------------------------------- login / logout

  datatype Session = Session(isAuthenticated: bool, currentUser: Option<CurrentUser>)

  datatype LoginResult = LoginResult(success: bool, session: Session, draft: LogDraft)

  /** The mock `login`: any credentials whose trimmed username and password
      are both non-empty are accepted. */
  function Login(s: Session, username: string, password: string, freshId: string): (r: LoginResult)
    ensures r.success <==> Trim(username) != "" && Trim(password) != ""
    ensures r.success ==> r.session == Session(true, Some(CurrentUser(freshId, Trim(username))))
    ensures !r.success ==> r.session == s
    ensures r.draft.operation == Types.Login && r.draft.username == Some(username)
    ensures r.draft.status == if r.success then Success else Failure
  {
    if Trim(username) != "" && Trim(password) != "" then
      var user := CurrentUser(freshId, Trim(username));
      var how := if Trim(username) == "demoUser" && password == "demoPass" then "Demo" else "Mock";
      LoginResult(true, Session(true, Some(user)),
        LogDraft(Types.Login, "User '" + username + "' logged in successfully (" + how + ").",
                 Success, None, None, None, None, Some(username)))
    else
      LoginResult(false, s,
        LogDraft(Types.Login, "Login attempt failed for user '" + username + "'.",
                 Failure, None, None, None, None, Some(username)))
  }

  /** Login is refused exactly when the username or the password is nothing
      but white space (or empty). */
  lemma LoginRefusedIffBlank(s: Session, username: string, password: string, freshId: string)
    ensures !Login(s, username, password, freshId).success <==> AllSpace(username) || AllSpace(password)
  {
    TrimEmptyIff(username);
    TrimEmptyIff(password);
  }

  /** `logout`: both the flag and the user are cleared. */
  function Logout(s: Session): (r: (Session, LogDraft))
    ensures r.0 == Session(false, None)
    ensures r.1.operation == Types.Logout && r.1.status == Info
    ensures r.1.username == Some(if s.currentUser.Some? && s.currentUser.value.username != ""
                                 then s.currentUser.value.username else "Unknown")
  {
    var who := if s.currentUser.Some? && s.currentUser.value.username != ""
               then s.currentUser.value.username else "Unknown";
    (Session(false, None),
     LogDraft(Types.Logout, "User '" + who + "' logged out.", Info, None, None, None, None, Some(who)))
  }

  /** Logging out after a successful login always returns to the signed-out
      session, whatever the session was before. */
  lemma LoginThenLogout(s: Session, username: string, password: string, freshId: string)
    requires Login(s, username, password, freshId).success
    ensures Logout(Login(s, username, password, freshId).session).0 == Session(false, None)
    ensures Logout(Login(s, username, password, freshId).session).1.username == Some(Trim(username))
  {
    var r := Login(s, username, password, freshId);
    assert r.session.currentUser.value.username == Trim(username);
  }

  // ---------------------------------------------------------------- vaults

  /** What `window.electronAPI.createVaultDirectory` did, if it exists. */
  datatype CreateOutcome =
    | NoCreateApi
    | CreateReturned(success: bool, newVault: Option<VaultItem>, error: Option<string>)
    | CreateThrew

  datatype VaultChange = VaultChange(vaults: seq<VaultItem>, created: Option<VaultItem>, drafts: seq<LogDraft>)

  /** How JavaScript interpolates an optional string into a template. */
  function Shown(o: Option<string>): string {
    match o
    case Some(s) => s
    case None => "undefined"
  }

  /** `addVault`: without the backend a placeholder vault with both counters
      at 0 is appended; with it, the backend's vault is appended when it
      reports one. Exactly one entry is logged either way. */
  function AddVault(vaults: seq<VaultItem>, name: string, path: string, outcome: CreateOutcome,
                    freshId: string, now: int): (r: VaultChange)
    ensures outcome.NoCreateApi? ==> r.created == Some(VaultItem(freshId, name, path, now, 0, 0))
    ensures outcome.CreateReturned? && outcome.success && outcome.newVault.Some? ==>
              r.created == outcome.newVault
    ensures r.created.Some? ==> r.vaults == vaults + [r.created.value]
    ensures r.created.None? ==> r.vaults == vaults
    ensures r.created.None? <==> (outcome.CreateThrew? || (outcome.CreateReturned? && !(outcome.success && outcome.newVault.Some?)))
    ensures |r.drafts| == 1 && r.drafts[0].operation == VaultCreate
    ensures r.drafts[0].status == if r.created.Some? then Success else Failure
  {
    match outcome
    case NoCreateApi =>
      var v := VaultItem(freshId, name, path, now, 0, 0);
      VaultChange(vaults + [v], Some(v),
        [Draft(VaultCreate, "Vault (local) \"" + v.name + "\" created at " + v.path + ".", Success)])
    case CreateReturned(success, newVault, error) =>
      if success && newVault.Some? then
        var v := newVault.value;
        VaultChange(vaults + [v], Some(v),
          [Draft(VaultCreate, "Vault \"" + v.name + "\" created at " + v.path + ".", Success)])
      else
        VaultChange(vaults, None,
          [Draft(VaultCreate, "Failed to create vault \"" + name + "\". Error: " + Shown(error), Failure)])
    case CreateThrew =>
      VaultChange(vaults, None, [Draft(VaultCreate, "Error creating vault \"" + name + "\".", Failure)])
  }

  /** `vaults.find(v => v.id === id)`. */
  function FindVault(vaults: seq<VaultItem>, id: string): (r: Option<VaultItem>)
    ensures r.Some? ==> r.value in vaults && r.value.id == id
    ensures r.None? ==> forall k :: 0 <= k < |vaults| ==> vaults[k].id != id
    ensures r.Some? ==> exists k :: 0 <= k < |vaults| && vaults[k] == r.value &&
                                    (forall j :: 0 <= j < k ==> vaults[j].id != id)
    decreases |vaults|
  {
    if |vaults| == 0 then None
    else if vaults[0].id == id then Some(vaults[0])
    else
      var r := FindVault(vaults[1..], id);
      if r.Some? then
        var k :| 0 <= k < |vaults[1..]| && vaults[1..][k] == r.value &&
                 (forall j :: 0 <= j < k ==> vaults[1..][j].id != id);
        assert vaults[k + 1] == r.value;
        r
      else r
  }

  /** What `window.electronAPI.deleteVaultDirectory` did, if it exists. */
  datatype DeleteOutcome = NoDeleteApi | DeleteReturned(success: bool, error: Option<string>) | DeleteThrew

  function WithoutId(vaults: seq<VaultItem>, id: string): seq<VaultItem> {
    Seqs.Filter(vaults, (v: VaultItem) => v.id != id)
  }

  /** `deleteVault`: an unknown id changes nothing and logs nothing;
      otherwise every vault with that id is removed when the deletion is
      not refused by the backend. */
  function DeleteVault(vaults: seq<VaultItem>, id: string, outcome: DeleteOutcome): (r: VaultChange)
    ensures r.created.None?
    ensures FindVault(vaults, id).None? ==> r.vaults == vaults && r.drafts == []
    ensures FindVault(vaults, id).Some? ==> |r.drafts| == 1 && r.drafts[0].operation == VaultDelete
    ensures FindVault(vaults, id).Some? && (outcome.NoDeleteApi? || (outcome.DeleteReturned? && outcome.success)) ==>
              r.vaults == WithoutId(vaults, id) && r.drafts[0].status == Success
    ensures FindVault(vaults, id).Some? && (outcome.DeleteThrew? || (outcome.DeleteReturned? && !outcome.success)) ==>
              r.vaults == vaults && r.drafts[0].status == Failure
  {
    match FindVault(vaults, id)
    case None => VaultChange(vaults, None, [])
    case Some(v) =>
      match outcome
      case NoDeleteApi =>
        VaultChange(WithoutId(vaults, id), None,
          [Draft(VaultDelete, "Vault (local) \"" + v.name + "\" deleted.", Success)])
      case DeleteReturned(success, error) =>
        if success then
          VaultChange(WithoutId(vaults, id), None, [Draft(VaultDelete, "Vault \"" + v.name + "\" deleted.", Success)])
        else
          VaultChange(vaults, None,
            [Draft(VaultDelete, "Failed to delete vault \"" + v.name + "\". Error: " + Shown(error), Failure)])
      case DeleteThrew =>
        VaultChange(vaults, None, [Draft(VaultDelete, "Error deleting vault \"" + v.name + "\".", Failure)])
  }

  /** A completed deletion removes exactly the vaults carrying that id. */
  lemma DeleteRemovesExactlyThatId(vaults: seq<VaultItem>, id: string)
    ensures var r := DeleteVault(vaults, id, NoDeleteApi).vaults;
            && (forall k :: 0 <= k < |r| ==> r[k].id != id && r[k] in vaults)
            && (forall k :: 0 <= k < |vaults| && vaults[k].id != id ==> vaults[k] in r)
  {
  }

  /** A vault added by the placeholder is found again by its id, and deleting
      that id (when it is fresh) gives back the original list. */
  lemma AddThenDeleteRestores(vaults: seq<VaultItem>, name: string, path: string, freshId: string, now: int)
    requires forall k :: 0 <= k < |vaults| ==> vaults[k].id != freshId
    ensures var added := AddVault(vaults, name, path, NoCreateApi, freshId, now).vaults;
            DeleteVault(added, freshId, NoDeleteApi).vaults == vaults
  {
    var added := AddVault(vaults, name, path, NoCreateApi, freshId, now).vaults;
    assert added[|added| - 1].id == freshId;
    assert FindVault(added, freshId).Some?;
    Seqs.FilterAppend(vaults, [added[|added| - 1]], (v: VaultItem) => v.id != freshId);
    Seqs.FilterKeepsAll(vaults, (v: VaultItem) => v.id != freshId);
  }

  /** The alert raised when the backend cannot list a vault. */
  const NoListAlert := "Listing vault contents is not available in this environment."

  /** What `window.electronAPI.listVaultContents` did, if it exists. */
  datatype ListOutcome = NoListApi | ListReturned(success: bool, files: seq<VaultFile>) | ListThrew

  /** `listVaultContents`: the files on success, nothing otherwise; without
      the backend the user is also alerted. */
  function ListVaultContents(outcome: ListOutcome): (r: (Option<seq<VaultFile>>, Option<string>))
    ensures r.0.Some? <==> outcome.ListReturned? && outcome.success
    ensures r.0.Some? ==> r.0.value == outcome.files
    ensures r.1.Some? <==> outcome.NoListApi?
    ensures r.1.Some? ==> r.1.value == NoListAlert
  {
    match outcome
    case NoListApi => (None, Some(NoListAlert))
    case ListReturned(success, files) => (if success then Some(files) else None, None)
    case ListThrew => (None, None)
  }
}
