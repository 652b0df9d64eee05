/** The activity-log view: an exact status filter, a case-insensitive
    search, and a keyed sort, all computed from a copy of the log. The
    sort is modelled as a stable insertion sort, which is what
    `Array.prototype.sort` must produce for a consistent comparator. */
module ActivityLogPage {
  import opened Wrappers
  import opened Text
  import opened Types
  import Seqs

  // ------------------------------------------------------------ filtering

  /** The status selector: everything, or one of three statuses. */
  datatype StatusFilter = AllStatuses | OnlySuccess | OnlyFailure | OnlyInfo

  function FilterTarget(f: StatusFilter): Option<LogStatus> {
    match f
    case AllStatuses => None
    case OnlySuccess => Some(Success)
    case OnlyFailure => Some(Failure)
    case OnlyInfo => Some(Info)
  }

  predicate PassesStatus(f: StatusFilter, e: LogEntry) {
    FilterTarget(f).None? || e.status == FilterTarget(f).value
  }

  /** `lower(field).includes(lower(term))` on operation, details or a
      non-empty target file. */
  predicate MatchesSearch(term: string, e: LogEntry) {
    var t := Lower(term);
    Contains(Lower(OperationTag(e.operation)), t)
    || Contains(Lower(e.details), t)
    || (e.targetFile.Some? && e.targetFile.value != "" && Contains(Lower(e.targetFile.value), t))
  }

  /** An empty search term keeps everything. */
  predicate PassesSearch(term: string, e: LogEntry) {
    term == "" || MatchesSearch(term, e)
  }

  function ByStatus(log: seq<LogEntry>, f: StatusFilter): (r: seq<LogEntry>)
    ensures FilterTarget(f).Some? ==> forall i :: 0 <= i < |r| ==> r[i].status == FilterTarget(f).value
    ensures f == AllStatuses ==> r == log
  {
    if f == AllStatuses then log
    else
      var p := (e: LogEntry) => PassesStatus(f, e);
      Seqs.Filter(log, p)
  }

  function BySearch(log: seq<LogEntry>, term: string): (r: seq<LogEntry>)
    ensures term != "" ==> forall i :: 0 <= i < |r| ==> MatchesSearch(term, r[i])
    ensures term == "" ==> r == log
  {
    if term == "" then log
    else
      var p := (e: LogEntry) => MatchesSearch(term, e);
      Seqs.Filter(log, p)
  }

  // -------------------------------------------------------------- ordering

  /** The keys of a log entry. */
  datatype SortKey =
    | KeyId | KeyTimestamp | KeyOperation | KeyDetails | KeyStatus
    | KeyTargetFile | KeyTargetVault | KeyAlgorithm | KeyErrorDetails | KeyUsername

  datatype Direction = Ascending | Descending

  datatype SortConfig = SortConfig(key: SortKey, direction: Direction)

  /** A sort value: the timestamp compares as a number, every other key as
      a string. */
  datatype SortValue = Num(n: int) | Str(s: string)

  /** `entry[key] ?? (key === 'timestamp' ? 0 : '')`. */
  function ValueOf(key: SortKey, e: LogEntry): (r: SortValue)
    ensures r.Num? <==> key == KeyTimestamp
  {
    match key
    case KeyId => Str(e.id)
    case KeyTimestamp => Num(e.timestamp)
    case KeyOperation => Str(OperationTag(e.operation))
    case KeyDetails => Str(e.details)
    case KeyStatus => Str(StatusTag(e.status))
    case KeyTargetFile => Str(e.targetFile.GetOr(""))
    case KeyTargetVault => Str(e.targetVault.GetOr(""))
    case KeyAlgorithm => Str(if e.algorithmUsed.Some? then AlgorithmTag(e.algorithmUsed.value) else "")
    case KeyErrorDetails => Str(e.errorDetails.GetOr(""))
    case KeyUsername => Str(e.username.GetOr(""))
  }

  /** JavaScript's `<` on two values of the same kind. */
  predicate ValueLess(a: SortValue, b: SortValue) {
    match (a, b)
    case (Num(x), Num(y)) => x < y
    case (Str(x), Str(y)) => StrLess(x, y)
    case _ => false
  }

  /** The order in effect: a configured key and direction, or newest first. */
  datatype Order = Configured(cfg: SortConfig) | NewestFirst

  /** No two values are each below the other. */
  lemma ValueLessAsymmetric(a: SortValue, b: SortValue)
    ensures !(ValueLess(a, b) && ValueLess(b, a))
  {
    if a.Str? && b.Str? {
      StrLessTrichotomy(a.s, b.s);
    }
  }

  /** The comparator handed to `sort`. */
  function Compare(ord: Order, a: LogEntry, b: LogEntry): (r: int)
    ensures ord.NewestFirst? ==> (r < 0 <==> a.timestamp > b.timestamp) && (r == 0 <==> a.timestamp == b.timestamp)
    ensures ord.Configured? ==> -1 <= r <= 1
    ensures ord.Configured? && ord.cfg.direction == Ascending ==>
              (r < 0 <==> ValueLess(ValueOf(ord.cfg.key, a), ValueOf(ord.cfg.key, b)))
    ensures ord.Configured? && ord.cfg.direction == Descending ==>
              (r < 0 <==> ValueLess(ValueOf(ord.cfg.key, b), ValueOf(ord.cfg.key, a)))
  {
    match ord
    case NewestFirst => b.timestamp - a.timestamp
    case Configured(cfg) =>
      var va := ValueOf(cfg.key, a);
      var vb := ValueOf(cfg.key, b);
      ValueLessAsymmetric(va, vb);
      if ValueLess(va, vb) then (if cfg.direction == Ascending then -1 else 1)
      else if ValueLess(vb, va) then (if cfg.direction == Ascending then 1 else -1)
      else 0
  }

  /** The comparator is consistent: swapping its arguments flips its sign. */
  lemma CompareAntisymmetric(ord: Order, a: LogEntry, b: LogEntry)
    ensures Compare(ord, a, b) > 0 <==> Compare(ord, b, a) < 0
    ensures Compare(ord, a, b) == 0 <==> Compare(ord, b, a) == 0
  {
    if ord.Configured? {
      var va := ValueOf(ord.cfg.key, a);
      var vb := ValueOf(ord.cfg.key, b);
      if va.Str? && vb.Str? {
        StrLessTrichotomy(va.s, vb.s);
      }
    }
  }

  /** Adjacent entries are in comparator order. */
  ghost predicate Sorted(ord: Order, s: seq<LogEntry>) {
    forall i :: 0 <= i < |s| - 1 ==> Compare(ord, s[i], s[i + 1]) <= 0
  }

  /** Inserts `x` after every entry that does not compare above it, which
      keeps equal entries in their arrival order. */
  function Insert(ord: Order, x: LogEntry, s: seq<LogEntry>): (r: seq<LogEntry>)
    requires Sorted(ord, s)
    ensures |r| == |s| + 1
    ensures multiset(r) == multiset(s) + multiset{x}
    ensures Sorted(ord, r)
    ensures r[0] == x || (|s| > 0 && r[0] == s[0])
    decreases |s|
  {
    if |s| == 0 then [x]
    else if Compare(ord, x, s[0]) < 0 then [x] + s
    else
      var rest := Insert(ord, x, s[1..]);
      CompareAntisymmetric(ord, x, s[0]);
      assert s == [s[0]] + s[1..];
      [s[0]] + rest
  }

  function SortLog(ord: Order, s: seq<LogEntry>): (r: seq<LogEntry>)
    ensures |r| == |s|
    ensures multiset(r) == multiset(s)
    ensures Sorted(ord, r)
    decreases |s|
  {
    if |s| == 0 then []
    else
      var init := s[..|s| - 1];
      assert s == init + [s[|s| - 1]];
      Insert(ord, s[|s| - 1], SortLog(ord, init))
  }

  // ------------------------------------------------------------- the view

  function OrderOf(cfg: Option<SortConfig>): Order {
    if cfg.Some? then Configured(cfg.value) else NewestFirst
  }

  /** `filteredAndSortedLog`. */
  function FilteredAndSortedLog(log: seq<LogEntry>, f: StatusFilter, term: string, cfg: Option<SortConfig>): (r: seq<LogEntry>)
    ensures multiset(r) == multiset(BySearch(ByStatus(log, f), term))
    ensures Sorted(OrderOf(cfg), r)
  {
    SortLog(OrderOf(cfg), BySearch(ByStatus(log, f), term))
  }

  /** An entry is displayed iff it is in the log and passes both filters;
      when a status is selected, every displayed entry has it. */
  lemma DisplayedIffPasses(log: seq<LogEntry>, f: StatusFilter, term: string, cfg: Option<SortConfig>, e: LogEntry)
    ensures e in FilteredAndSortedLog(log, f, term, cfg) <==> e in log && PassesStatus(f, e) && PassesSearch(term, e)
    ensures FilterTarget(f).Some? && e in FilteredAndSortedLog(log, f, term, cfg) ==> e.status == FilterTarget(f).value
  {
    var r := FilteredAndSortedLog(log, f, term, cfg);
    var s1 := ByStatus(log, f);
    var s2 := BySearch(s1, term);
    assert e in r <==> e in multiset(r);
    assert e in s2 <==> e in multiset(s2);
    assert e in s1 ==> e in log && PassesStatus(f, e) by {
      if e in s1 && f != AllStatuses {
        var i :| 0 <= i < |s1| && s1[i] == e;
      }
    }
    assert e in log && PassesStatus(f, e) ==> e in s1 by {
      if e in log && f != AllStatuses {
        var i :| 0 <= i < |log| && log[i] == e;
      }
    }
    assert e in s2 ==> e in s1 && PassesSearch(term, e) by {
      if e in s2 && term != "" {
        var i :| 0 <= i < |s2| && s2[i] == e;
      }
    }
    assert e in s1 && PassesSearch(term, e) ==> e in s2 by {
      if e in s1 && term != "" {
        var i :| 0 <= i < |s1| && s1[i] == e;
      }
    }
  }

  /** Without a sort configuration the view shows newest first. */
  lemma DefaultIsNewestFirst(log: seq<LogEntry>, f: StatusFilter, term: string)
    ensures var r := FilteredAndSortedLog(log, f, term, None);
            forall i :: 0 <= i < |r| - 1 ==> r[i].timestamp >= r[i + 1].timestamp
  {
    var r := FilteredAndSortedLog(log, f, term, None);
    forall i | 0 <= i < |r| - 1
      ensures r[i].timestamp >= r[i + 1].timestamp
    {
      assert Compare(NewestFirst, r[i], r[i + 1]) <= 0;
    }
  }

  /** With a configuration, adjacent entries are ordered by the chosen key in
      the chosen direction. */
  lemma ConfiguredOrder(log: seq<LogEntry>, f: StatusFilter, term: string, cfg: SortConfig)
    ensures var r := FilteredAndSortedLog(log, f, term, Some(cfg));
            forall i :: 0 <= i < |r| - 1 ==>
              if cfg.direction == Ascending then !ValueLess(ValueOf(cfg.key, r[i + 1]), ValueOf(cfg.key, r[i]))
              else !ValueLess(ValueOf(cfg.key, r[i]), ValueOf(cfg.key, r[i + 1]))
  {
    var r := FilteredAndSortedLog(log, f, term, Some(cfg));
    forall i | 0 <= i < |r| - 1
      ensures if cfg.direction == Ascending then !ValueLess(ValueOf(cfg.key, r[i + 1]), ValueOf(cfg.key, r[i]))
              else !ValueLess(ValueOf(cfg.key, r[i]), ValueOf(cfg.key, r[i + 1]))
    {
      assert Compare(Configured(cfg), r[i], r[i + 1]) <= 0;
      var va := ValueOf(cfg.key, r[i]);
      var vb := ValueOf(cfg.key, r[i + 1]);
      if va.Str? && vb.Str? {
        StrLessTrichotomy(va.s, vb.s);
      }
    }
  }

  /** `requestSort`: descending exactly when the same key is currently
      ascending, ascending otherwise. */
  function RequestSort(cfg: Option<SortConfig>, key: SortKey): (r: SortConfig)
    ensures r.key == key
    ensures r.direction == Descending <==> cfg == Some(SortConfig(key, Ascending))
  {
    if cfg.Some? && cfg.value.key == key && cfg.value.direction == Ascending
    then SortConfig(key, Descending)
    else SortConfig(key, Ascending)
  }

  /** Requesting the same key again flips the direction; three requests in a
      row come back to the second one. */
  lemma RequestSortToggles(cfg: Option<SortConfig>, key: SortKey)
    ensures var once := RequestSort(cfg, key);
            var twice := RequestSort(Some(once), key);
            && twice.direction != once.direction
            && RequestSort(Some(twice), key) == once
  {
  }
}
