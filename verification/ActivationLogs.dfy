/**
 From usage feedback to weighted co-activation pairs: the activation log of
 `hippmem-consolidation/src/hebbian.rs` and the loop that fills it in
 `hippmem-engine/src/consolidate_api.rs`.
 */
module ActivationLogs {
  import opened MemoryModel
  import opened Sorting
  import opened Sums

  datatype Entry = Entry(id: Id, at: int, energy: real)

  datatype CoPair = CoPair(a: Id, b: Id, weight: real)

  type PairKey = (Id, Id)

  function KeyOf(x: Id, y: Id): PairKey {
    if x < y then (x, y) else (y, x)
  }

  predicate InWindow(x: Entry, y: Entry, window: int) {
    -window < x.at - y.at < window
  }

  predicate Hits(x: Entry, y: Entry, window: int, k: PairKey) {
    InWindow(x, y, window) && KeyOf(x.id, y.id) == k
  }

  // ----- what a pair weighs -----

  /** Minimum energies of entry `i` with the entries i+1 .. j-1 that hit `k`. */
  ghost function RowWeight(log: seq<Entry>, i: nat, j: nat, window: int, k: PairKey): real
    requires i < j <= |log|
  {
    if j == i + 1 then 0.0
    else RowWeight(log, i, j - 1, window, k) +
         (if Hits(log[i], log[j - 1], window, k) then Min(log[i].energy, log[j - 1].energy) else 0.0)
  }

  /** The same over all rows below `i`. */
  ghost function WeightBelow(log: seq<Entry>, i: nat, window: int, k: PairKey): real
    requires i <= |log|
  {
    if i == 0 then 0.0 else WeightBelow(log, i - 1, window, k) + RowWeight(log, i - 1, |log|, window, k)
  }

  /** The sum of minimum energies over all in-window index pairs of `k`. */
  ghost function PairWeight(log: seq<Entry>, window: int, k: PairKey): real {
    WeightBelow(log, |log|, window, k)
  }

  ghost predicate Coactivated(log: seq<Entry>, window: int, k: PairKey) {
    exists i, j :: 0 <= i < j < |log| && Hits(log[i], log[j], window, k)
  }

  predicate KeyBefore(x: (PairKey, real), y: (PairKey, real)) {
    x.0.0 < y.0.0 || (x.0.0 == y.0.0 && x.0.1 < y.0.1)
  }

  predicate AscendingPairs(pairs: seq<CoPair>) {
    forall i, j :: 0 <= i < j < |pairs| ==>
      pairs[i].a < pairs[j].a || (pairs[i].a == pairs[j].a && pairs[i].b < pairs[j].b)
  }

  ghost predicate HasPair(pairs: seq<CoPair>, k: PairKey) {
    exists p :: p in pairs && (p.a, p.b) == k
  }

  /** One pair for each co-activated key, carrying its exact weight. */
  ghost predicate ArePairsOf(pairs: seq<CoPair>, log: seq<Entry>, window: int) {
    && (forall p :: p in pairs ==> p.a <= p.b && p.weight == PairWeight(log, window, (p.a, p.b)))
    && (forall k: PairKey :: Coactivated(log, window, k) <==> HasPair(pairs, k))
  }

  function Lookup(m: map<PairKey, real>, k: PairKey): real {
    if k in m then m[k] else 0.0
  }

  /** The index pairs visited before row `i` reaches column `j`. */
  ghost predicate Scanned(x: int, y: int, i: nat, j: nat, n: nat) {
    0 <= x < y < n && (x < i || (x == i && y < j))
  }

  ghost predicate HitBelow(log: seq<Entry>, i: nat, j: nat, window: int, k: PairKey)
    requires i < j <= |log|
  {
    exists x, y :: Scanned(x, y, i, j, |log|) && Hits(log[x], log[y], window, k)
  }

  /** The map holds the weights of the rows below `i` and of row `i` up to `j`. */
  ghost predicate TalliedKey(m: map<PairKey, real>, log: seq<Entry>, i: nat, j: nat, window: int, k: PairKey)
    requires i < j <= |log|
  {
    && Lookup(m, k) == WeightBelow(log, i, window, k) + RowWeight(log, i, j, window, k)
    && (k in m <==> HitBelow(log, i, j, window, k))
  }

  ghost predicate Tallied(m: map<PairKey, real>, log: seq<Entry>, i: nat, j: nat, window: int)
    requires i < j <= |log|
  {
    forall k: PairKey :: TalliedKey(m, log, i, j, window, k)
  }

  function Tally(m: map<PairKey, real>, a: Entry, b: Entry, window: int): map<PairKey, real> {
    if InWindow(a, b, window) then
      var key := KeyOf(a.id, b.id);
      m[key := Lookup(m, key) + Min(a.energy, b.energy)]
    else m
  }

  lemma TallyStep(m: map<PairKey, real>, log: seq<Entry>, i: nat, j: nat, window: int)
    requires i < j < |log| && Tallied(m, log, i, j, window)
    ensures Tallied(Tally(m, log[i], log[j], window), log, i, j + 1, window)
  {
    var m', j' := Tally(m, log[i], log[j], window), j + 1;
    forall k: PairKey ensures TalliedKey(m', log, i, j', window, k) {
      assert TalliedKey(m, log, i, j, window, k);
      HitStep(log, i, j, window, k);
    }
  }

  lemma HitStep(log: seq<Entry>, i: nat, j: nat, window: int, k: PairKey)
    requires i < j < |log|
    ensures HitBelow(log, i, j + 1, window, k) <==> HitBelow(log, i, j, window, k) || Hits(log[i], log[j], window, k)
  {
    if HitBelow(log, i, j + 1, window, k) {
      var x, y :| Scanned(x, y, i, j + 1, |log|) && Hits(log[x], log[y], window, k);
      assert Scanned(x, y, i, j, |log|) || (x == i && y == j);
    }
    if HitBelow(log, i, j, window, k) {
      var x, y :| Scanned(x, y, i, j, |log|) && Hits(log[x], log[y], window, k);
      assert Scanned(x, y, i, j + 1, |log|);
    }
    assert Scanned(i, j, i, j + 1, |log|);
  }

  lemma HitRow(log: seq<Entry>, i: nat, window: int, k: PairKey)
    requires i + 1 < |log|
    ensures HitBelow(log, i, |log|, window, k) <==> HitBelow(log, i + 1, i + 2, window, k)
  {
    if HitBelow(log, i, |log|, window, k) {
      var x, y :| Scanned(x, y, i, |log|, |log|) && Hits(log[x], log[y], window, k);
      assert Scanned(x, y, i + 1, i + 2, |log|);
    }
    if HitBelow(log, i + 1, i + 2, window, k) {
      var x, y :| Scanned(x, y, i + 1, i + 2, |log|) && Hits(log[x], log[y], window, k);
      assert Scanned(x, y, i, |log|, |log|);
    }
  }

  lemma TallyRow(m: map<PairKey, real>, log: seq<Entry>, i: nat, window: int)
    requires i + 1 < |log| && Tallied(m, log, i, |log|, window)
    ensures Tallied(m, log, i + 1, i + 2, window)
  {
    var i', j' := i + 1, i + 2;
    forall k: PairKey ensures TalliedKey(m, log, i', j', window, k) {
      assert TalliedKey(m, log, i, |log|, window, k);
      HitRow(log, i, window, k);
    }
  }

  lemma TallyStart(log: seq<Entry>, window: int)
    requires log != []
    ensures Tallied(map[], log, 0, 1, window)
  {
    forall k: PairKey ensures TalliedKey(map[], log, 0, 1, window, k) {
      assert !HitBelow(log, 0, 1, window, k);
    }
  }

  /** When the last row is done the map holds exactly the co-activated keys with their weights. */
  lemma TallyDone(m: map<PairKey, real>, log: seq<Entry>, window: int, k: PairKey)
    requires if log == [] then m == map[] else Tallied(m, log, |log| - 1, |log|, window)
    ensures k in m <==> Coactivated(log, window, k)
    ensures k in m ==> m[k] == PairWeight(log, window, k) && k.0 <= k.1
  {
    if log != [] {
      assert TalliedKey(m, log, |log| - 1, |log|, window, k);
      if HitBelow(log, |log| - 1, |log|, window, k) {
        var x, y :| Scanned(x, y, |log| - 1, |log|, |log|) && Hits(log[x], log[y], window, k);
      }
      if Coactivated(log, window, k) {
        var x, y :| 0 <= x < y < |log| && Hits(log[x], log[y], window, k);
        assert Scanned(x, y, |log| - 1, |log|, |log|);
      }
    }
  }

  class ActivationLog {
    var entries: seq<Entry>

    constructor ()
      ensures entries == []
    {
      entries := [];
    }

    method Record(id: Id, now: int, energy: real)
      modifies this
      ensures entries == old(entries) + [Entry(id, now, energy)]
    {
      entries := entries + [Entry(id, now, energy)];
    }

    /** Pairs come out in strictly ascending order, one for each co-activated key, with its exact weight. */
    method CoActivationPairs(window: int) returns (pairs: seq<CoPair>)
      ensures AscendingPairs(pairs) && ArePairsOf(pairs, entries, window)
      ensures forall a, b :: a <= b ==> (HasPair(pairs, (a, b)) <==> MeetInLog(entries, a, b, window))
      ensures forall p :: p in pairs ==> p.a <= p.b && p.weight == MeetingWeight(entries, p.a, p.b, window)
    {
      var m: map<PairKey, real> := map[];
      var n := |entries|;
      for i := 0 to n
        invariant i == 0 ==> m == map[]
        invariant i > 0 ==> Tallied(m, entries, i - 1, n, window)
      {
        if i > 0 {
          TallyRow(m, entries, i - 1, window);
        } else {
          TallyStart(entries, window);
        }
        for j := i + 1 to n
          invariant Tallied(m, entries, i, j, window)
        {
          TallyStep(m, entries, i, j, window);
          m := Tally(m, entries[i], entries[j], window);
        }
      }
      forall k: PairKey
        ensures k in m <==> Coactivated(entries, window, k)
        ensures k in m ==> m[k] == PairWeight(entries, window, k) && k.0 <= k.1
      {
        TallyDone(m, entries, window, k);
      }
      pairs := SortedPairs(m);
      forall a, b | a <= b
        ensures HasPair(pairs, (a, b)) <==> MeetInLog(entries, a, b, window)
        ensures PairWeight(entries, window, (a, b)) == MeetingWeight(entries, a, b, window)
      {
        PairedExactly(entries, window, pairs, a, b);
        PairWeightIsMeeting(entries, a, b, window);
      }
    }
  }

  /** Drains the hash map and sorts by key, which fixes the order. */
  method SortedPairs(m: map<PairKey, real>) returns (pairs: seq<CoPair>)
    requires forall k :: k in m ==> k.0 <= k.1
    ensures AscendingPairs(pairs)
    ensures forall p :: p in pairs ==> (p.a, p.b) in m && m[(p.a, p.b)] == p.weight
    ensures forall k :: k in m ==> CoPair(k.0, k.1, m[k]) in pairs
  {
    var items := Enumerate(m);
    var sorted := Sort(items, KeyBefore);
    SortPermutes(items, KeyBefore);
    SortOrdered(items, KeyBefore);
    ListingPermutes(items, sorted, m);
    pairs := ToPairs(sorted);
    PairsOfListing(sorted, m);
  }

  function ToPairs(items: seq<(PairKey, real)>): seq<CoPair> {
    seq(|items|, i requires 0 <= i < |items| => CoPair(items[i].0.0, items[i].0.1, items[i].1))
  }

  lemma PairsOfListing(items: seq<(PairKey, real)>, m: map<PairKey, real>)
    requires IsListing(items, m) && Ordered(items, KeyBefore)
    ensures var pairs := ToPairs(items);
            && AscendingPairs(pairs)
            && (forall p :: p in pairs ==> (p.a, p.b) in m && m[(p.a, p.b)] == p.weight)
            && (forall k :: k in m ==> CoPair(k.0, k.1, m[k]) in pairs)
  {
    var pairs := ToPairs(items);
    forall i, j | 0 <= i < j < |items| ensures KeyBefore(items[i], items[j]) {
      assert !KeyBefore(items[j], items[i]) && items[i].0 != items[j].0;
    }
    forall k | k in m ensures CoPair(k.0, k.1, m[k]) in pairs {
      var i :| 0 <= i < |items| && items[i] == (k, m[k]);
      assert pairs[i] == CoPair(k.0, k.1, m[k]);
    }
  }

  // ----- filling the log from feedback records -----

  datatype Signal = Referenced | UserConfirmedCorrect | TaskSucceeded | UserRejected | OtherSignal

  datatype FeedbackRecord = FeedbackRecord(signal: Signal, used: seq<Id>, at: int)

  predicate Positive(s: Signal) {
    s.Referenced? || s.UserConfirmedCorrect? || s.TaskSucceeded?
  }

  function SignalWeight(s: Signal): real {
    match s
    case Referenced => 0.5
    case TaskSucceeded => 0.8
    case _ => 1.0
  }

  /** `usage_delta`: what a signal adds to the usage score of every memory it names. */
  function UsageDelta(s: Signal): real {
    match s
    case UserConfirmedCorrect => 0.10
    case TaskSucceeded => 0.08
    case Referenced => 0.05
    case UserRejected => -0.10
    case OtherSignal => 0.0
  }

  /** `a` recorded together with each of `rest`. */
  function PairRow(a: Id, rest: seq<Id>, at: int, w: real): seq<Entry> {
    if rest == [] then [] else [Entry(a, at, w), Entry(rest[0], at, w)] + PairRow(a, rest[1..], at, w)
  }

  /** Every two positions of one record, in order. */
  function RecordLog(ids: seq<Id>, at: int, w: real): seq<Entry> {
    if ids == [] then [] else PairRow(ids[0], ids[1..], at, w) + RecordLog(ids[1..], at, w)
  }

  function LogOf(records: seq<FeedbackRecord>): seq<Entry> {
    if records == [] then []
    else
      var r := records[|records| - 1];
      LogOf(records[..|records| - 1]) +
      (if Positive(r.signal) then RecordLog(r.used, r.at, SignalWeight(r.signal)) else [])
  }

  function RejectedOf(records: seq<FeedbackRecord>): seq<Id> {
    if records == [] then []
    else
      var r := records[|records| - 1];
      RejectedOf(records[..|records| - 1]) + (if r.signal.UserRejected? then r.used else [])
  }

  method ReadFeedback(records: seq<FeedbackRecord>) returns (log: ActivationLog, rejected: seq<Id>)
    ensures fresh(log) && log.entries == LogOf(records)
    ensures rejected == RejectedOf(records)
    ensures forall e :: e in log.entries <==> exists r :: r in records && Logs(r, e)
    ensures forall x :: x in rejected <==> exists r :: r in records && r.signal == UserRejected && x in r.used
  {
    log := new ActivationLog();
    rejected := [];
    for k := 0 to |records|
      invariant fresh(log) && log.entries == LogOf(records[..k])
      invariant rejected == RejectedOf(records[..k])
    {
      var r := records[k];
      assert records[..k + 1][..k] == records[..k];
      if Positive(r.signal) {
        RecordPairs(log, r.used, r.at, SignalWeight(r.signal));
      } else if r.signal.UserRejected? && r.used != [] {
        rejected := rejected + r.used;
      }
    }
    assert records[..|records|] == records;
    LogOrigins(records);
    RejectedOrigins(records);
  }

  /** What a record leaves in the log, if it names two memories: each at its time, with an energy for the signal. */
  ghost predicate Logs(r: FeedbackRecord, e: Entry) {
    && |r.used| >= 2 && e.id in r.used && e.at == r.at
    && match r.signal
       case UserConfirmedCorrect => e.energy == 1.0
       case TaskSucceeded => e.energy == 0.8
       case Referenced => e.energy == 0.5
       case UserRejected => false
       case OtherSignal => false
  }

  lemma {:induction false} RowEntries(a: Id, rest: seq<Id>, at: int, w: real)
    ensures forall e :: e in PairRow(a, rest, at, w) <==>
              rest != [] && e.at == at && e.energy == w && (e.id == a || e.id in rest)
  {
    if rest != [] {
      RowEntries(a, rest[1..], at, w);
    }
  }

  lemma {:induction false} RecordEntries(ids: seq<Id>, at: int, w: real)
    ensures forall e :: e in RecordLog(ids, at, w) <==> |ids| >= 2 && e.at == at && e.energy == w && e.id in ids
  {
    if ids != [] {
      RowEntries(ids[0], ids[1..], at, w);
      RecordEntries(ids[1..], at, w);
    }
  }

  lemma {:induction false} LogOrigins(records: seq<FeedbackRecord>)
    ensures forall e :: e in LogOf(records) <==> exists r :: r in records && Logs(r, e)
  {
    if records != [] {
      var init, r := records[..|records| - 1], records[|records| - 1];
      LogOrigins(init);
      assert records == init + [r];
      RecordEntries(r.used, r.at, SignalWeight(r.signal));
      var added := if Positive(r.signal) then RecordLog(r.used, r.at, SignalWeight(r.signal)) else [];
      forall e ensures e in added <==> Logs(r, e) {
      }
    }
  }

  lemma {:induction false} RejectedOrigins(records: seq<FeedbackRecord>)
    ensures forall x :: x in RejectedOf(records) <==>
              exists r :: r in records && r.signal == UserRejected && x in r.used
  {
    if records != [] {
      var init, r := records[..|records| - 1], records[|records| - 1];
      RejectedOrigins(init);
      assert records == init + [r];
    }
  }

  lemma LogConcat(records: seq<FeedbackRecord>, later: seq<FeedbackRecord>)
    ensures LogOf(records + later) == LogOf(records) + LogOf(later)
  {
    var one := (r: FeedbackRecord) => LogOf([r]);
    forall s, r ensures PushesAt(LogOf, one, s, r) {
      LogPush(s, r);
    }
    PushesSplit(LogOf, one, records, later);
  }

  lemma LogPush(records: seq<FeedbackRecord>, r: FeedbackRecord)
    ensures LogOf(records + [r]) == LogOf(records) + LogOf([r])
  {
    assert (records + [r])[..|records|] == records && [r][..0] == [];
    assert LogOf([]) == [];
  }

  method RecordPairs(log: ActivationLog, ids: seq<Id>, at: int, w: real)
    modifies log
    ensures log.entries == old(log.entries) + RecordLog(ids, at, w)
  {
    for i := 0 to |ids|
      invariant log.entries + RecordLog(ids[i..], at, w) == old(log.entries) + RecordLog(ids, at, w)
    {
      assert ids[i..][1..] == ids[i + 1..];
      RecordRow(log, ids[i], ids[i + 1..], at, w);
    }
  }

  /** The inner loop: one position with every later one. */
  method RecordRow(log: ActivationLog, a: Id, rest: seq<Id>, at: int, w: real)
    modifies log
    ensures log.entries == old(log.entries) + PairRow(a, rest, at, w)
  {
    for j := 0 to |rest|
      invariant log.entries + PairRow(a, rest[j..], at, w) == old(log.entries) + PairRow(a, rest, at, w)
    {
      assert rest[j..][1..] == rest[j + 1..];
      log.Record(a, at, w);
      log.Record(rest[j], at, w);
    }
  }

  // ----- weights in closed form -----

  /** How often `x` occurs. */
  function Occurrences(log: seq<Entry>, x: Id): nat {
    if log == [] then 0 else (if log[0].id == x then 1 else 0) + Occurrences(log[1..], x)
  }

  predicate Uniform(log: seq<Entry>, at: int, w: real) {
    forall e :: e in log ==> e.at == at && e.energy == w
  }

  /** `n` copies of `w`. */
  ghost function Times(w: real, n: nat): real {
    if n == 0 then 0.0 else Times(w, n - 1) + w
  }

  lemma {:induction false} TimesSum(w: real, a: nat, b: nat)
    ensures Times(w, a + b) == Times(w, a) + Times(w, b)
  {
    if b > 0 {
      TimesSum(w, a, b - 1);
    }
  }

  lemma {:induction false} TimesIsProduct(w: real, n: nat)
    ensures Times(w, n) == w * n as real
  {
    if n > 0 {
      TimesIsProduct(w, n - 1);
      var r := (n - 1) as real;
      assert n as real == r + 1.0;
      assert w * (r + 1.0) == w * r + w;
    }
  }

  /** The other member of `k`, if `x` is one. */
  function Partner(x: Id, k: PairKey): Option<Id> {
    if x == k.0 then Some(k.1) else if x == k.1 then Some(k.0) else None
  }

  lemma {:induction false} UniformRow(log: seq<Entry>, i: nat, j: nat, window: int, k: PairKey, at: int, w: real)
    requires Uniform(log, at, w) && window > 0 && i < j <= |log| && k.0 <= k.1
    ensures RowWeight(log, i, j, window, k) ==
            match Partner(log[i].id, k)
            case Some(y) => Times(w, Occurrences(log[i + 1..j], y))
            case None => 0.0
  {
    if j > i + 1 {
      UniformRow(log, i, j - 1, window, k, at, w);
      var earlier, e := log[i + 1..j - 1], log[j - 1];
      assert log[i + 1..j] == earlier + [e];
      assert log[i] in log && e in log;
      assert Hits(log[i], e, window, k) <==> Partner(log[i].id, k) == Some(e.id);
      if Partner(log[i].id, k).Some? {
        var y := Partner(log[i].id, k).value;
        OccurrencesConcat(earlier, [e], y);
        assert [e][1..] == [];
      }
    }
  }

  lemma {:induction false} OccurrencesConcat(a: seq<Entry>, b: seq<Entry>, x: Id)
    ensures Occurrences(a + b, x) == Occurrences(a, x) + Occurrences(b, x)
  {
    if a == [] {
      assert a + b == b;
    } else {
      OccurrencesConcat(a[1..], b, x);
      assert (a + b)[1..] == a[1..] + b;
    }
  }

  /** Ways to choose two entries: one of each id, or two of the same id. */
  function Choices(cx: nat, cy: nat, same: bool): nat {
    if same then Triangle(cx) else cx * cy
  }

  function Triangle(c: nat): nat {
    if c == 0 then 0 else Triangle(c - 1) + c - 1
  }

  function ChoicesIn(log: seq<Entry>, k: PairKey): nat {
    Choices(Occurrences(log, k.0), Occurrences(log, k.1), k.0 == k.1)
  }

  lemma ChoicesStep(e: Entry, rest: seq<Entry>, k: PairKey)
    ensures ChoicesIn([e] + rest, k) ==
            ChoicesIn(rest, k) + match Partner(e.id, k) case Some(y) => Occurrences(rest, y) case None => 0
  {
    assert ([e] + rest)[1..] == rest;
  }

  /** In a uniform log a pair weighs one energy per way to choose its two entries. */
  lemma {:induction false} UniformWeights(log: seq<Entry>, i: nat, window: int, k: PairKey, at: int, w: real)
    requires Uniform(log, at, w) && window > 0 && i <= |log| && k.0 <= k.1
    ensures WeightBelow(log, i, window, k) + Times(w, ChoicesIn(log[i..], k)) == Times(w, ChoicesIn(log, k))
  {
    if i == 0 {
      assert log[0..] == log;
    } else {
      UniformWeights(log, i - 1, window, k, at, w);
      UniformRow(log, i - 1, |log|, window, k, at, w);
      assert log[i..|log|] == log[i..];
      assert log[i - 1..] == [log[i - 1]] + log[i..];
      ChoicesStep(log[i - 1], log[i..], k);
      var c := ChoicesIn(log[i..], k);
      match Partner(log[i - 1].id, k) {
        case Some(y) => TimesSum(w, c, Occurrences(log[i..], y));
        case None =>
      }
    }
  }

  lemma {:induction false} RowOccurrences(a: Id, rest: seq<Id>, at: int, w: real, x: Id)
    requires Distinct(rest) && a !in rest
    ensures Occurrences(PairRow(a, rest, at, w), x) == if x == a then |rest| else if x in rest then 1 else 0
    ensures Uniform(PairRow(a, rest, at, w), at, w)
  {
    if rest != [] {
      RowOccurrences(a, rest[1..], at, w, x);
      var head := [Entry(a, at, w), Entry(rest[0], at, w)];
      OccurrencesConcat(head, PairRow(a, rest[1..], at, w), x);
      assert head[1..] == [Entry(rest[0], at, w)] && head[1..][1..] == [];
    }
  }

  /** In the log of one record every id occurs once with each other id. */
  lemma {:induction false} RecordOccurrences(ids: seq<Id>, at: int, w: real, x: Id)
    requires Distinct(ids)
    ensures Occurrences(RecordLog(ids, at, w), x) == if x in ids then |ids| - 1 else 0
    ensures Uniform(RecordLog(ids, at, w), at, w)
  {
    if ids != [] {
      var a, rest := ids[0], ids[1..];
      RowOccurrences(a, rest, at, w, x);
      RecordOccurrences(rest, at, w, x);
      OccurrencesConcat(PairRow(a, rest, at, w), RecordLog(rest, at, w), x);
    }
  }

  /**
   One positive record of `n` distinct ids gives every cross pair the weight (n-1)^2 w and,
   although an id is never paired with itself in the record, every self pair (n-1)(n-2)/2 w.
   */
  lemma SingleRecordWeights(ids: seq<Id>, at: int, w: real, window: int, x: Id, y: Id)
    requires Distinct(ids) && window > 0 && x in ids && y in ids && x <= y
    ensures PairWeight(RecordLog(ids, at, w), window, (x, y)) == RecordWeight(w, |ids| - 1, x == y)
  {
    RecordChoices(ids, at, w, window, x, y);
    WeightClosed(w, |ids| - 1, x == y);
  }

  /** With `m` = n - 1: m (m - 1) / 2 times `w` for a self pair, m^2 times `w` for a cross pair. */
  function RecordWeight(w: real, m: nat, same: bool): real {
    w * RecordFactor(m as real, same)
  }

  function RecordFactor(m: real, same: bool): real {
    if same then m * (m - 1.0) / 2.0 else m * m
  }

  /** One `w` per way to choose two entries from two groups of `m`. */
  ghost function ChoicesWeight(w: real, m: nat, same: bool): real {
    Times(w, Choices(m, m, same))
  }

  lemma WeightClosed(w: real, m: nat, same: bool)
    ensures ChoicesWeight(w, m, same) == RecordWeight(w, m, same)
  {
    var c, f := Choices(m, m, same), RecordFactor(m as real, same);
    TimesIsProduct(w, c);
    ChoicesClosed(m, same);
    SameFactor(w, c as real, f);
  }

  lemma SameFactor(w: real, a: real, b: real)
    requires a == b
    ensures w * a == w * b
  {}

  lemma ChoicesClosed(m: nat, same: bool)
    ensures Choices(m, m, same) as real == RecordFactor(m as real, same)
  {
    TriangleClosed(m);
  }

  lemma RecordChoices(ids: seq<Id>, at: int, w: real, window: int, x: Id, y: Id)
    requires Distinct(ids) && window > 0 && x in ids && y in ids && x <= y
    ensures PairWeight(RecordLog(ids, at, w), window, (x, y)) == ChoicesWeight(w, |ids| - 1, x == y)
  {
    var log := RecordLog(ids, at, w);
    RecordOccurrences(ids, at, w, x);
    RecordOccurrences(ids, at, w, y);
    UniformWeights(log, |log|, window, (x, y), at, w);
    assert log[|log|..] == [];
  }

  lemma {:induction false} TriangleClosed(c: nat)
    ensures Triangle(c) as real == c as real * (c as real - 1.0) / 2.0
    ensures (c * c) as real == c as real * c as real
  {
    if c > 0 {
      TriangleClosed(c - 1);
      var r := (c - 1) as real;
      assert c as real == r + 1.0;
      assert (r + 1.0) * r == r * (r - 1.0) + 2.0 * r;
      assert (r + 1.0) * (r + 1.0) == r * r + 2.0 * r + 1.0;
      assert c * c == (c - 1) * (c - 1) + 2 * (c - 1) + 1;
    }
  }

  // ----- an id paired with itself -----

  /** Two entries of `x` lie within the window of each other. */
  ghost predicate RecursWithin(log: seq<Entry>, x: Id, window: int) {
    exists i, j :: 0 <= i < j < |log| && log[i].id == x && log[j].id == x && InWindow(log[i], log[j], window)
  }

  /** An id is paired with itself exactly when it is logged twice within the window, whatever the energies. */
  lemma SelfCoactivated(log: seq<Entry>, window: int, x: Id, pairs: seq<CoPair>)
    requires ArePairsOf(pairs, log, window)
    ensures HasPair(pairs, (x, x)) <==> RecursWithin(log, x, window)
  {
    assert HasPair(pairs, (x, x)) <==> Coactivated(log, window, (x, x));
    if Coactivated(log, window, (x, x)) {
      var i, j :| 0 <= i < j < |log| && Hits(log[i], log[j], window, (x, x));
      assert log[i].id == x && log[j].id == x;
    }
    if RecursWithin(log, x, window) {
      var i, j :| 0 <= i < j < |log| && log[i].id == x && log[j].id == x && InWindow(log[i], log[j], window);
      assert Hits(log[i], log[j], window, (x, x));
    }
  }

  lemma {:induction false} QuietRow(log: seq<Entry>, i: nat, j: nat, window: int, k: PairKey)
    requires i < j <= |log| && !Coactivated(log, window, k)
    ensures RowWeight(log, i, j, window, k) == 0.0
  {
    if j > i + 1 {
      QuietRow(log, i, j - 1, window, k);
      assert !Hits(log[i], log[j - 1], window, k);
    }
  }

  /** What is not co-activated weighs nothing. */
  lemma {:induction false} QuietWeight(log: seq<Entry>, i: nat, window: int, k: PairKey)
    requires i <= |log| && !Coactivated(log, window, k)
    ensures WeightBelow(log, i, window, k) == 0.0
  {
    if i > 0 {
      QuietWeight(log, i - 1, window, k);
      QuietRow(log, i - 1, |log|, window, k);
    }
  }

  // ----- the weight as a sum over pairs of entries -----

  /** Two entries make up the pair of `a` and `b`, less than a window apart. */
  ghost predicate Meet(x: Entry, y: Entry, a: Id, b: Id, window: int) {
    && ((x.id == a && y.id == b) || (x.id == b && y.id == a))
    && x.at - y.at < window && y.at - x.at < window
  }

  /** What an entry adds to the pair with another one: the smaller of their energies. */
  ghost function MeetWith(x: Entry, a: Id, b: Id, window: int): Entry -> real {
    (y: Entry) => if Meet(x, y, a, b, window) then (if x.energy <= y.energy then x.energy else y.energy) else 0.0
  }

  /** Every entry with all the later ones. */
  ghost function MeetingWeight(log: seq<Entry>, a: Id, b: Id, window: int): real {
    if log == [] then 0.0
    else Sum(log[1..], MeetWith(log[0], a, b, window)) + MeetingWeight(log[1..], a, b, window)
  }

  lemma HitsIsMeet(x: Entry, y: Entry, a: Id, b: Id, window: int)
    requires a <= b
    ensures Hits(x, y, window, (a, b)) <==> Meet(x, y, a, b, window)
  {
  }

  lemma {:induction false} RowIsSum(log: seq<Entry>, i: nat, j: nat, a: Id, b: Id, window: int)
    requires i < j <= |log| && a <= b
    ensures RowWeight(log, i, j, window, (a, b)) == Sum(log[i + 1..j], MeetWith(log[i], a, b, window))
  {
    if j > i + 1 {
      var f := MeetWith(log[i], a, b, window);
      RowIsSum(log, i, j - 1, a, b, window);
      HitsIsMeet(log[i], log[j - 1], a, b, window);
      assert log[i + 1..j] == log[i + 1..j - 1] + [log[j - 1]];
      SumConcat(log[i + 1..j - 1], [log[j - 1]], f);
      assert [log[j - 1]][1..] == [];
    }
  }

  lemma {:induction false} WeightIsSum(log: seq<Entry>, i: nat, a: Id, b: Id, window: int)
    requires i <= |log| && a <= b
    ensures WeightBelow(log, i, window, (a, b)) + MeetingWeight(log[i..], a, b, window) ==
            MeetingWeight(log, a, b, window)
  {
    if i == 0 {
      assert log[0..] == log;
    } else {
      WeightIsSum(log, i - 1, a, b, window);
      RowIsSum(log, i - 1, |log|, a, b, window);
      assert log[i - 1..][1..] == log[i..] == log[i..|log|];
    }
  }

  /** A pair weighs the smaller energies of all its pairs of entries less than a window apart. */
  lemma PairWeightIsMeeting(log: seq<Entry>, a: Id, b: Id, window: int)
    requires a <= b
    ensures PairWeight(log, window, (a, b)) == MeetingWeight(log, a, b, window)
  {
    WeightIsSum(log, |log|, a, b, window);
    assert log[|log|..] == [];
  }

  ghost predicate MeetInLog(log: seq<Entry>, a: Id, b: Id, window: int) {
    exists i, j :: 0 <= i < |log| && 0 <= j < |log| && i != j && log[i].id == a && log[j].id == b &&
      log[i].at - log[j].at < window && log[j].at - log[i].at < window
  }

  /** Exactly those ids are paired that have two entries less than a window apart, in either order. */
  lemma PairedExactly(log: seq<Entry>, window: int, pairs: seq<CoPair>, a: Id, b: Id)
    requires ArePairsOf(pairs, log, window) && a <= b
    ensures HasPair(pairs, (a, b)) <==> MeetInLog(log, a, b, window)
  {
    if HasPair(pairs, (a, b)) {
      var i, j :| 0 <= i < j < |log| && Hits(log[i], log[j], window, (a, b));
      HitsIsMeet(log[i], log[j], a, b, window);
      if log[i].id != a {
        assert log[j].id == a && log[i].id == b;
      }
    }
    if MeetInLog(log, a, b, window) {
      var i, j :| 0 <= i < |log| && 0 <= j < |log| && i != j && log[i].id == a && log[j].id == b &&
        log[i].at - log[j].at < window && log[j].at - log[i].at < window;
      if i < j {
        assert Hits(log[i], log[j], window, (a, b));
      } else {
        assert Hits(log[j], log[i], window, (a, b));
      }
      assert Coactivated(log, window, (a, b));
    }
  }

  // ----- the order of the log does not matter -----

  lemma MeetSymmetric(x: Entry, y: Entry, a: Id, b: Id, window: int)
    ensures MeetWith(x, a, b, window)(y) == MeetWith(y, a, b, window)(x)
  {
  }

  /** Moving an entry to the front leaves the weight as it is. */
  lemma {:induction false} MoveToFront(before: seq<Entry>, e: Entry, after: seq<Entry>, a: Id, b: Id, window: int)
    ensures MeetingWeight(before + [e] + after, a, b, window) == MeetingWeight([e] + (before + after), a, b, window)
  {
    if before == [] {
      assert before + [e] + after == [e] + (before + after);
    } else {
      var x, rest := before[0], before[1..];
      MoveToFront(rest, e, after, a, b, window);
      assert (before + [e] + after)[1..] == rest + [e] + after;
      assert ([e] + (before + after))[1..] == before + after && (before + after)[1..] == rest + after;
      assert ([e] + (rest + after))[1..] == rest + after;
      SumConcat(rest + [e], after, MeetWith(x, a, b, window));
      SumConcat(rest, [e], MeetWith(x, a, b, window));
      SumConcat(rest, after, MeetWith(x, a, b, window));
      assert [e][1..] == [];
      MeetSymmetric(x, e, a, b, window);
    }
  }

  function Without(s: seq<Entry>, k: nat): seq<Entry>
    requires k < |s|
  {
    s[..k] + s[k + 1..]
  }

  lemma WithoutOne(s: seq<Entry>, k: nat)
    requires k < |s|
    ensures multiset(Without(s, k)) + multiset{s[k]} == multiset(s)
  {
    assert s == s[..k] + [s[k]] + s[k + 1..];
  }

  lemma WithoutEqual(s: seq<Entry>, t: seq<Entry>, i: nat, k: nat)
    requires multiset(s) == multiset(t) && i < |s| && k < |t| && s[i] == t[k]
    ensures multiset(Without(s, i)) == multiset(Without(t, k))
  {
    WithoutOne(s, i);
    WithoutOne(t, k);
    assert multiset(Without(s, i)) == multiset(s) - multiset{s[i]};
    assert multiset(Without(t, k)) == multiset(t) - multiset{t[k]};
  }

  lemma {:induction false} MeetingPermutes(log: seq<Entry>, other: seq<Entry>, a: Id, b: Id, window: int)
    requires multiset(log) == multiset(other)
    ensures MeetingWeight(log, a, b, window) == MeetingWeight(other, a, b, window)
  {
    if log == [] {
      assert |multiset(other)| == 0;
    } else {
      var e, rest := log[0], log[1..];
      assert e in multiset(log) && e in multiset(other);
      var k :| 0 <= k < |other| && other[k] == e;
      var before, after := other[..k], other[k + 1..];
      assert other == before + [e] + after && rest == Without(log, 0);
      WithoutEqual(log, other, 0, k);
      MeetingPermutes(rest, before + after, a, b, window);
      MoveToFront(before, e, after, a, b, window);
      assert ([e] + (before + after))[1..] == before + after;
      SumPermutes(rest, before + after, MeetWith(e, a, b, window));
    }
  }

  /** The pairs and their weights do not depend on the order of the log, so its reverse gives the same. */
  lemma PairsOrderFree(log: seq<Entry>, other: seq<Entry>, window: int, pairs: seq<CoPair>, others: seq<CoPair>)
    requires multiset(log) == multiset(other) && ArePairsOf(pairs, log, window) && ArePairsOf(others, other, window)
    ensures forall p :: p in pairs <==> p in others
  {
    SamePairs(log, other, window, pairs, others);
    SamePairs(other, log, window, others, pairs);
  }

  lemma SamePairs(log: seq<Entry>, other: seq<Entry>, window: int, pairs: seq<CoPair>, others: seq<CoPair>)
    requires multiset(log) == multiset(other) && ArePairsOf(pairs, log, window) && ArePairsOf(others, other, window)
    ensures forall p :: p in pairs ==> p in others
  {
    forall p | p in pairs ensures p in others {
      assert HasPair(pairs, (p.a, p.b));
      var i, j :| 0 <= i < j < |log| && Hits(log[i], log[j], window, (p.a, p.b));
      var x, y := StandsTwice(log, other, i, j);
      HitsEitherWay(other, x, y, window, (p.a, p.b));
      var q :| q in others && (q.a, q.b) == (p.a, p.b);
      PairWeightIsMeeting(log, p.a, p.b, window);
      PairWeightIsMeeting(other, p.a, p.b, window);
      MeetingPermutes(log, other, p.a, p.b, window);
    }
  }

  lemma HitsEitherWay(log: seq<Entry>, x: nat, y: nat, window: int, k: PairKey)
    requires x < |log| && y < |log| && x != y && Hits(log[x], log[y], window, k)
    ensures Coactivated(log, window, k)
  {
    if y < x {
      assert Hits(log[y], log[x], window, k);
    }
  }

  /** Two entries of a list stand in any permutation of it, at two places. */
  lemma StandsTwice(log: seq<Entry>, other: seq<Entry>, i: nat, j: nat) returns (x: nat, y: nat)
    requires multiset(log) == multiset(other) && i < j < |log|
    ensures x < |other| && y < |other| && x != y && other[x] == log[i] && other[y] == log[j]
  {
    assert log[i] in multiset(log);
    x :| x < |other| && other[x] == log[i];
    WithoutEqual(log, other, i, x);
    var rest := Without(other, x);
    assert Without(log, i)[j - 1] == log[j] && log[j] in multiset(Without(log, i));
    var k :| 0 <= k < |rest| && rest[k] == log[j];
    y := if k < x then k else k + 1;
  }

  // ----- what lies a window apart -----

  /** No entry of one list comes within the window of one of the other. */
  ghost predicate FarApart(log: seq<Entry>, later: seq<Entry>, window: int) {
    forall x, y :: x in log && y in later ==> y.at - x.at >= window || x.at - y.at >= window
  }

  lemma {:induction false} FarSum(x: Entry, later: seq<Entry>, a: Id, b: Id, window: int)
    requires FarApart([x], later, window)
    ensures Sum(later, MeetWith(x, a, b, window)) == 0.0
  {
    if later != [] {
      assert x in [x] && later[0] in later;
      FarSum(x, later[1..], a, b, window);
    }
  }

  /** Logs a window apart contribute independently: the weights add up. */
  lemma {:induction false} FarWeightsAdd(log: seq<Entry>, later: seq<Entry>, a: Id, b: Id, window: int)
    requires FarApart(log, later, window)
    ensures MeetingWeight(log + later, a, b, window) ==
            MeetingWeight(log, a, b, window) + MeetingWeight(later, a, b, window)
  {
    if log == [] {
      assert log + later == later;
    } else {
      var x, rest := log[0], log[1..];
      assert (log + later)[1..] == rest + later;
      FarWeightsAdd(rest, later, a, b, window);
      SumConcat(rest, later, MeetWith(x, a, b, window));
      assert x in log;
      FarSum(x, later, a, b, window);
    }
  }

  lemma NoneAcross(log: seq<Entry>, later: seq<Entry>, i: nat, j: nat, window: int, k: PairKey)
    requires FarApart(log, later, window) && i < |log| && j < |later|
    ensures !Hits(log[i], later[j], window, k)
  {
    assert log[i] in log && later[j] in later;
  }

  /** Of two stretches of the log a window apart, each pairs what it pairs alone, and a pair weighs the sum. */
  lemma FarLogsIndependent(log: seq<Entry>, later: seq<Entry>, a: Id, b: Id, window: int)
    requires FarApart(log, later, window) && a <= b
    ensures PairWeight(log + later, window, (a, b)) ==
            PairWeight(log, window, (a, b)) + PairWeight(later, window, (a, b))
    ensures Coactivated(log + later, window, (a, b)) <==>
            Coactivated(log, window, (a, b)) || Coactivated(later, window, (a, b))
  {
    PairWeightIsMeeting(log + later, a, b, window);
    PairWeightIsMeeting(log, a, b, window);
    PairWeightIsMeeting(later, a, b, window);
    FarWeightsAdd(log, later, a, b, window);
    PairedInPart(log, later, window, (a, b));
    if !Coactivated(log, window, (a, b)) && !Coactivated(later, window, (a, b)) {
      NothingAcross(log, later, window, (a, b));
    }
  }

  lemma PairedInPart(log: seq<Entry>, later: seq<Entry>, window: int, k: PairKey)
    ensures Coactivated(log, window, k) || Coactivated(later, window, k) ==> Coactivated(log + later, window, k)
  {
    var all := log + later;
    if Coactivated(log, window, k) {
      var i, j :| 0 <= i < j < |log| && Hits(log[i], log[j], window, k);
      assert Hits(all[i], all[j], window, k);
    }
    if Coactivated(later, window, k) {
      var i, j :| 0 <= i < j < |later| && Hits(later[i], later[j], window, k);
      assert Hits(all[i + |log|], all[j + |log|], window, k);
    }
  }

  lemma NothingAcross(log: seq<Entry>, later: seq<Entry>, window: int, k: PairKey)
    requires FarApart(log, later, window) && !Coactivated(log, window, k) && !Coactivated(later, window, k)
    ensures !Coactivated(log + later, window, k)
  {
    var all := log + later;
    forall i: nat, j: nat | i < j < |all| ensures !Hits(all[i], all[j], window, k) {
      if j < |log| {
        assert !Hits(log[i], log[j], window, k);
      } else if i < |log| {
        NoneAcross(log, later, i, j - |log|, window, k);
      } else {
        assert !Hits(later[i - |log|], later[j - |log|], window, k);
      }
    }
  }

  /** Records at least a window apart contribute independently to every pair. */
  lemma FarRecordsIndependent(records: seq<FeedbackRecord>, later: seq<FeedbackRecord>, a: Id, b: Id, window: int)
    requires forall r, s :: r in records && s in later ==> s.at - r.at >= window || r.at - s.at >= window
    requires a <= b
    ensures PairWeight(LogOf(records + later), window, (a, b)) ==
            PairWeight(LogOf(records), window, (a, b)) + PairWeight(LogOf(later), window, (a, b))
    ensures Coactivated(LogOf(records + later), window, (a, b)) <==>
            Coactivated(LogOf(records), window, (a, b)) || Coactivated(LogOf(later), window, (a, b))
  {
    LogConcat(records, later);
    LogOrigins(records);
    LogOrigins(later);
    FarLogsIndependent(LogOf(records), LogOf(later), a, b, window);
  }
}
