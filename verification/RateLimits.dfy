/**
 The two rate limiters: counters in aligned time windows in the database (api/database.go), and the in-memory log of
 recent admissions (api/admission.go). Both are compared with the complete history of what they admitted.
 */
module RateLimits {

  // ----- Aligned windows

  /** One row of the bucket table: what is limited, for whom, and when its window starts. */
  datatype Bucket = Bucket(kind: string, key: string, start: int)

  /** time.Truncate: down to a multiple of the window; a window that is not positive changes nothing. */
  function WindowStart(now: int, window: int): int {
    if window <= 0 then now else now - now % window
  }

  /** A window starts at a multiple of its length, no later than any of its times, and ends before the next one
      starts. */
  lemma WindowStartLaws(now: int, window: int)
    requires window > 0
    ensures WindowStart(now, window) <= now < WindowStart(now, window) + window
    ensures exists n: int :: WindowStart(now, window) == n * window
    ensures WindowStart(now + window, window) == WindowStart(now, window) + window
  {
    assert WindowStart(now, window) == (now / window) * window;
    var q := now / window;
    assert now + window == (q + 1) * window + now % window;
    SameQuotient(now + window, window, q + 1, now % window);
  }

  lemma SameQuotient(x: int, window: int, n: int, rest: int)
    requires window > 0 && x == n * window + rest && 0 <= rest < window
    ensures x % window == rest
  {
    var d := n - x / window;
    assert x == (x / window) * window + x % window;
    assert d * window == x % window - rest;
    OnlyZero(d, window, x % window - rest);
  }

  lemma OnlyZero(d: int, window: int, r: int)
    requires window > 0 && d * window == r && -window < r < window
    ensures r == 0
  {
    if d >= 1 {
      assert d * window == window + (d - 1) * window;
      NotNegative(d - 1, window);
    } else if d <= -1 {
      assert d * window == -window - (-1 - d) * window;
      NotNegative(-1 - d, window);
    }
  }

  datatype Call = Call(bucket: Bucket, now: int, allowed: bool)

  ghost function Admitted(history: seq<Call>, bucket: Bucket): nat {
    if history == [] then 0
    else
      var last := history[|history| - 1];
      Admitted(history[..|history| - 1], bucket) + if last.allowed && last.bucket == bucket then 1 else 0
  }

  ghost function AtLeastOne(limit: int): nat {
    if limit < 1 then 1 else limit
  }

  function CountOf(counts: map<Bucket, nat>, bucket: Bucket): nat {
    if bucket in counts then counts[bucket] else 0
  }

  /** Every counter is the number of admissions in its window since the beginning. */
  ghost predicate Counted(counts: map<Bucket, nat>, history: seq<Call>) {
    (forall b: Bucket :: CountOf(counts, b) == Admitted(history, b)) && forall b | b in counts :: counts[b] >= 1
  }

  lemma CountCall(counts: map<Bucket, nat>, history: seq<Call>, call: Call)
    requires Counted(counts, history)
    ensures Counted(if call.allowed then counts[call.bucket := CountOf(counts, call.bucket) + 1] else counts,
                    history + [call])
  {
    var after := if call.allowed then counts[call.bucket := CountOf(counts, call.bucket) + 1] else counts;
    assert (history + [call])[..|history|] == history;
    forall b: Bucket ensures CountOf(after, b) == Admitted(history + [call], b) {
      assert CountOf(counts, b) == Admitted(history, b);
    }
  }

  /** Every call of one kind and key used this limit and window, and was decided as AllowRate decides. */
  ghost predicate Decided(history: seq<Call>, kind: string, key: string, limit: int, window: int) {
    forall i | 0 <= i < |history| && history[i].bucket.kind == kind && history[i].bucket.key == key ::
      DecidedAt(history, i, limit, window)
  }

  ghost predicate DecidedAt(history: seq<Call>, i: nat, limit: int, window: int)
    requires i < |history|
  {
    && history[i].bucket.start == WindowStart(history[i].now, window)
    && (history[i].allowed <==> Admitted(history[..i], history[i].bucket) < AtLeastOne(limit))
  }

  lemma DecidedBefore(history: seq<Call>, kind: string, key: string, limit: int, window: int)
    requires history != [] && Decided(history, kind, key, limit, window)
    ensures Decided(history[..|history| - 1], kind, key, limit, window)
  {
    var rest := history[..|history| - 1];
    forall i | 0 <= i < |rest| && rest[i].bucket.kind == kind && rest[i].bucket.key == key
      ensures DecidedAt(rest, i, limit, window)
    {
      assert DecidedAt(history, i, limit, window);
      assert rest[..i] == history[..i];
    }
  }

  /** One more call that is decided this way, or is for another kind or key, leaves the history decided this way. */
  lemma DecidedAfter(history: seq<Call>, call: Call, kind: string, key: string, limit: int, window: int)
    requires Decided(history, kind, key, limit, window)
    requires call.bucket.kind == kind && call.bucket.key == key ==>
               && call.bucket.start == WindowStart(call.now, window)
               && (call.allowed <==> Admitted(history, call.bucket) < AtLeastOne(limit))
    ensures Decided(history + [call], kind, key, limit, window)
  {
    var after := history + [call];
    forall i | 0 <= i < |after| && after[i].bucket.kind == kind && after[i].bucket.key == key
      ensures DecidedAt(after, i, limit, window)
    {
      assert after[..i] == history[..i];
      if i < |history| {
        assert DecidedAt(history, i, limit, window);
      } else {
        assert history[..i] == history;
      }
    }
  }

  /** What was decided by one limit and window still is: for this kind and key by these, for others by any. */
  ghost predicate KeepsDecided(before: seq<Call>, after: seq<Call>, kind: string, key: string, limit: int,
                               window: int) {
    && (Decided(before, kind, key, limit, window) ==> Decided(after, kind, key, limit, window))
    && forall other, theirs, l, w | (other, theirs) != (kind, key) && Decided(before, other, theirs, l, w) ::
         Decided(after, other, theirs, l, w)
  }

  lemma DecidedAfterCall(history: seq<Call>, call: Call, limit: int, window: int)
    requires call.bucket.start == WindowStart(call.now, window)
    requires call.allowed <==> Admitted(history, call.bucket) < AtLeastOne(limit)
    ensures KeepsDecided(history, history + [call], call.bucket.kind, call.bucket.key, limit, window)
  {
    var kind, key := call.bucket.kind, call.bucket.key;
    if Decided(history, kind, key, limit, window) { DecidedAfter(history, call, kind, key, limit, window); }
    forall other, theirs, l, w | (other, theirs) != (kind, key) && Decided(history, other, theirs, l, w)
      ensures Decided(history + [call], other, theirs, l, w)
    {
      DecidedAfter(history, call, other, theirs, l, w);
    }
  }

  class BucketStore {
    var counts: map<Bucket, nat>
    ghost var history: seq<Call>

    constructor ()
      ensures Counted(counts, history) && history == []
      ensures forall kind, key, limit, window :: Decided(history, kind, key, limit, window)
    {
      counts, history := map[], [];
    }

    /** The insert makes a new counter without looking at the limit; only the update does. */
    method AllowRate(kind: string, key: string, limit: int, window: int, now: int) returns (allowed: bool)
      requires Counted(counts, history)
      modifies this
      ensures Counted(counts, history)
      ensures allowed <==> Admitted(old(history), Bucket(kind, key, WindowStart(now, window))) < AtLeastOne(limit)
      ensures var before := Admitted(old(history), Bucket(kind, key, WindowStart(now, window)));
              allowed <==> before == 0 || before < limit
      ensures history == old(history) + [Call(Bucket(kind, key, WindowStart(now, window)), now, allowed)]
      ensures KeepsDecided(old(history), history, kind, key, limit, window)
    {
      var bucket := Bucket(kind, key, WindowStart(now, window));
      assert CountOf(counts, bucket) == Admitted(history, bucket);
      ghost var before := counts;
      if bucket !in counts {
        counts := counts[bucket := 1];
        allowed := true;
      } else if counts[bucket] < limit {
        counts := counts[bucket := counts[bucket] + 1];
        allowed := true;
      } else {
        allowed := false;
      }
      CountCall(before, history, Call(bucket, now, allowed));
      DecidedAfterCall(history, Call(bucket, now, allowed), limit, window);
      history := history + [Call(bucket, now, allowed)];
    }
  }

  /** No window admits more than the limit, except that it always admits one. */
  lemma {:induction false} WindowBound(history: seq<Call>, bucket: Bucket, limit: int, window: int)
    requires Decided(history, bucket.kind, bucket.key, limit, window)
    ensures Admitted(history, bucket) <= AtLeastOne(limit)
    decreases |history|
  {
    if history != [] {
      DecidedBefore(history, bucket.kind, bucket.key, limit, window);
      WindowBound(history[..|history| - 1], bucket, limit, window);
      if history[|history| - 1].bucket == bucket {
        assert DecidedAt(history, |history| - 1, limit, window);
      }
    }
  }

  /** A limit of zero, or below, does admit one: the first call of every window. */
  lemma NoLimitAdmitsOne(kind: string, key: string, limit: int, window: int, now: int)
    requires limit <= 0
    ensures var bucket := Bucket(kind, key, WindowStart(now, window));
            var history := [Call(bucket, now, true)];
            Decided(history, kind, key, limit, window) && Admitted(history, bucket) == 1
  {
    var bucket := Bucket(kind, key, WindowStart(now, window));
    var none: seq<Call>, call := [], Call(bucket, now, true);
    DecidedAfter(none, call, kind, key, limit, window);
    assert none + [call] == [call] && [call][..0] == none;
    assert Admitted([call], bucket) == Admitted(none, bucket) + 1;
  }

  /** Admissions of one kind and key with from <= now < to. */
  ghost function AdmittedBetween(history: seq<Call>, kind: string, key: string, from: int, to: int): nat {
    if history == [] then 0
    else
      var last := history[|history| - 1];
      AdmittedBetween(history[..|history| - 1], kind, key, from, to)
      + if last.allowed && last.bucket.kind == kind && last.bucket.key == key && from <= last.now < to then 1 else 0
  }

  /** A time in an interval of one window lies in the aligned window of its start or in the one after. */
  lemma TwoWindows(now: int, from: int, window: int)
    requires window > 0 && from <= now < from + window
    ensures WindowStart(now, window) == WindowStart(from, window)
            || WindowStart(now, window) == WindowStart(from, window) + window
  {
    var q, p := from / window, now / window;
    assert from == q * window + from % window && now == p * window + now % window;
    Apart(q, p, window, now - from + from % window - now % window);
  }

  lemma Apart(q: int, p: int, window: int, d: int)
    requires window > 0 && p * window - q * window == d && -window < d < 2 * window
    ensures p == q || p == q + 1
    ensures p * window == q * window || p * window == q * window + window
  {
    var n := p - q;
    assert n * window == d;
    if n >= 2 {
      assert n * window == 2 * window + (n - 2) * window;
      NotNegative(n - 2, window);
    } else if n <= -1 {
      assert n * window == -window - (-1 - n) * window;
      NotNegative(-1 - n, window);
    }
  }

  lemma NotNegative(a: int, b: int)
    requires a >= 0 && b >= 0
    ensures a * b >= 0
  {
  }

  lemma {:induction false} SplitInTwo(history: seq<Call>, kind: string, key: string, limit: int, window: int, from: int)
    requires window > 0 && Decided(history, kind, key, limit, window)
    ensures AdmittedBetween(history, kind, key, from, from + window)
            <= Admitted(history, Bucket(kind, key, WindowStart(from, window)))
               + Admitted(history, Bucket(kind, key, WindowStart(from, window) + window))
    decreases |history|
  {
    if history != [] {
      DecidedBefore(history, kind, key, limit, window);
      SplitInTwo(history[..|history| - 1], kind, key, limit, window, from);
      var last := history[|history| - 1];
      if last.bucket.kind == kind && last.bucket.key == key && from <= last.now < from + window {
        assert DecidedAt(history, |history| - 1, limit, window);
        TwoWindows(last.now, from, window);
      }
    }
  }

  /** In any interval of one window, aligned or not, at most twice the limit is admitted, whatever the order of the
      clock readings. */
  lemma TwiceTheLimit(history: seq<Call>, kind: string, key: string, limit: int, window: int, from: int)
    requires window > 0 && Decided(history, kind, key, limit, window)
    ensures AdmittedBetween(history, kind, key, from, from + window) <= 2 * AtLeastOne(limit)
  {
    SplitInTwo(history, kind, key, limit, window, from);
    WindowBound(history, Bucket(kind, key, WindowStart(from, window)), limit, window);
    WindowBound(history, Bucket(kind, key, WindowStart(from, window) + window), limit, window);
  }

  // ----- The log of recent admissions

  ghost predicate Ascending(log: seq<int>) {
    forall i, j | 0 <= i < j < |log| :: log[i] <= log[j]
  }

  /** How many entries are not before `since`. */
  ghost function CountSince(log: seq<int>, since: int): nat {
    if log == [] then 0 else CountSince(log[..|log| - 1], since) + if log[|log| - 1] >= since then 1 else 0
  }

  lemma {:induction false} CountSorted(log: seq<int>, since: int, k: nat)
    requires k <= |log|
    requires (forall i | 0 <= i < k :: log[i] < since) && forall i | k <= i < |log| :: log[i] >= since
    ensures CountSince(log, since) == |log| - k
    decreases |log|
  {
    if log != [] {
      CountSorted(log[..|log| - 1], since, if k == |log| then k - 1 else k);
    }
  }

  /** The kept entries are the end of the complete log, and everything dropped is before `since`. */
  ghost predicate Kept(kept: seq<int>, log: seq<int>, since: int) {
    && |kept| <= |log| && kept == log[|log| - |kept|..]
    && forall i | 0 <= i < |log| - |kept| :: log[i] < since
  }

  ghost predicate UpTo(log: seq<int>, clock: int) {
    Ascending(log) && forall i | 0 <= i < |log| :: log[i] <= clock
  }

  /** Entries `limit` apart are more than a window apart: no window holds more than `limit` of them. */
  ghost predicate Sparse(log: seq<int>, window: nat, limit: nat) {
    forall i, j | 0 <= i && j == i + limit && j < |log| :: log[i] + window < log[j]
  }

  /** The first entry from i on that is not before `since`. */
  function FirstRecent(values: seq<int>, since: int, i: nat): (first: nat)
    requires i <= |values|
    ensures i <= first <= |values|
    decreases |values| - i
  {
    if i < |values| && values[i] < since then FirstRecent(values, since, i + 1) else i
  }

  function RecentOf(values: seq<int>, since: int): seq<int> {
    values[FirstRecent(values, since, 0)..]
  }

  lemma {:induction false} AllBefore(values: seq<int>, since: int, i: nat)
    requires i <= |values|
    ensures forall k | i <= k < FirstRecent(values, since, i) :: values[k] < since
    ensures FirstRecent(values, since, i) < |values| ==> values[FirstRecent(values, since, i)] >= since
    decreases |values| - i
  {
    if i < |values| && values[i] < since { AllBefore(values, since, i + 1); }
  }

  method Recent(values: seq<int>, since: int) returns (rest: seq<int>)
    ensures rest == RecentOf(values, since)
    ensures |rest| <= |values| && rest == values[|values| - |rest|..] && (rest != [] ==> rest[0] >= since)
    ensures forall i | 0 <= i < |values| - |rest| :: values[i] < since
  {
    AllBefore(values, since, 0);
    var index := 0;
    while index < |values| && values[index] < since
      invariant index <= |values| && FirstRecent(values, since, index) == FirstRecent(values, since, 0)
    {
      index := index + 1;
    }
    rest := values[index..];
  }

  lemma SameEnd(log: seq<int>, kept: seq<int>, rest: seq<int>)
    requires |rest| <= |kept| <= |log| && kept == log[|log| - |kept|..] && rest == kept[|kept| - |rest|..]
    ensures rest == log[|log| - |rest|..]
  {
  }

  lemma StillKept(kept: seq<int>, rest: seq<int>, log: seq<int>, before: int, since: int)
    requires Kept(kept, log, before) && before <= since
    requires |rest| <= |kept| && rest == kept[|kept| - |rest|..]
    requires forall i | 0 <= i < |kept| - |rest| :: kept[i] < since
    ensures Kept(rest, log, since)
  {
    var m := |log| - |kept|;
    SameEnd(log, kept, rest);
    forall i | 0 <= i < |log| - |rest| ensures log[i] < since {
      if i >= m { assert kept[i - m] == log[i]; }
    }
  }

  /** Dropping old entries loses nothing: what is kept are exactly the admissions since then. */
  lemma PrunedCount(kept: seq<int>, log: seq<int>, before: int, since: int)
    requires Kept(kept, log, before) && before <= since && Ascending(log)
    ensures Kept(RecentOf(kept, since), log, since)
    ensures |RecentOf(kept, since)| == CountSince(log, since)
  {
    var first := FirstRecent(kept, since, 0);
    var rest, k := kept[first..], |log| - |kept| + first;
    AllBefore(kept, since, 0);
    StillKept(kept, rest, log, before, since);
    forall i | k <= i < |log| ensures log[i] >= since { assert kept[first] == log[k]; }
    CountSorted(log, since, k);
  }

  lemma KeepOneMore(kept: seq<int>, log: seq<int>, since: int, now: int)
    requires Kept(kept, log, since) && UpTo(log, now)
    ensures Kept(kept + [now], log + [now], since) && UpTo(log + [now], now)
  {
    var more := log + [now];
    assert more[|more| - |kept + [now]|..] == kept + [now];
  }

  lemma StaysSparse(kept: seq<int>, log: seq<int>, since: int, now: int, window: nat, limit: nat)
    requires Kept(kept, log, since) && Sparse(log, window, limit) && |kept| < limit && since == now - window
    ensures Sparse(log + [now], window, limit)
  {
    var more := log + [now];
    forall i, j | 0 <= i && j == i + limit && j < |more| ensures more[i] + window < more[j] {
      if j == |log| { assert log[i] < since; }
    }
  }

  type Owner = string

  const MAX_OWNER_STORAGE: int := 10 * 1024 * 1024 * 1024
  const MAX_OWNER_DOCUMENTS: int := 1000
  const MAX_UPLOADS_PER_HOUR: nat := 10
  const MAX_ACTIVE_ANSWERS: int := 2
  const MAX_ANSWERS_PER_DAY: nat := 100
  const HOUR: nat := 3600 * 1000 * 1000 * 1000
  const DAY: nat := 24 * HOUR

  datatype Usage = Usage(bytes: int, documents: int, uploads: seq<int>, answers: seq<int>, active: int)

  const NO_USAGE: Usage := Usage(0, 0, [], [], 0)

  /** What one owner asks for. */
  datatype Op = Upload(size: int) | Release(size: int) | Begin | End

  function HourBefore(now: int): int { now - HOUR }

  function DayBefore(now: int): int { now - DAY }

  /** The owner's new state, and whether the request is admitted, given what pruning leaves of the two logs. */
  ghost function StepWith(usage: Usage, op: Op, now: int, uploads: seq<int>, answers: seq<int>): (Usage, bool) {
    match op
    case Upload(size) =>
      if usage.bytes + size <= MAX_OWNER_STORAGE && usage.documents < MAX_OWNER_DOCUMENTS
          && |uploads| < MAX_UPLOADS_PER_HOUR
      then (usage.(bytes := usage.bytes + size, documents := usage.documents + 1, uploads := uploads + [now]), true)
      else (usage.(uploads := uploads), false)
    case Release(size) => (usage.(bytes := usage.bytes - size, documents := usage.documents - 1), true)
    case Begin =>
      if usage.active < MAX_ACTIVE_ANSWERS && |answers| < MAX_ANSWERS_PER_DAY
      then (usage.(active := usage.active + 1, answers := answers + [now]), true)
      else (usage.(answers := answers), false)
    case End => (usage.(active := if usage.active > 0 then usage.active - 1 else usage.active), true)
  }

  ghost function Step(usage: Usage, op: Op, now: int): (Usage, bool) {
    StepWith(usage, op, now, RecentOf(usage.uploads, HourBefore(now)), RecentOf(usage.answers, DayBefore(now)))
  }

  /** An upload request in figures. */
  ghost predicate UploadCounted(before: Usage, after: Usage, size: int, now: int, ok: bool) {
    && |after.uploads| <= |before.uploads| + 1 && after.answers == before.answers && after.active == before.active
    && (ok ==> && after.bytes == before.bytes + size <= 10 * 1024 * 1024 * 1024
               && after.documents == before.documents + 1 <= 1000
               && 1 <= |after.uploads| <= 10 && after.uploads[|after.uploads| - 1] == now)
    && (!ok ==> && after.bytes == before.bytes && after.documents == before.documents
                && (before.bytes + size > 10 * 1024 * 1024 * 1024 || before.documents >= 1000
                    || |after.uploads| >= 10))
  }

  lemma UploadCounts(before: Usage, size: int, now: int, kept: seq<int>)
    requires |kept| <= |before.uploads| && kept == RecentOf(before.uploads, HourBefore(now))
    ensures var full := before.bytes + size > MAX_OWNER_STORAGE || before.documents >= MAX_OWNER_DOCUMENTS
                        || |kept| >= MAX_UPLOADS_PER_HOUR;
            var pruned := before.(uploads := kept);
            var more := pruned.(bytes := before.bytes + size, documents := before.documents + 1,
                                uploads := kept + [now]);
            && Step(before, Upload(size), now) == (if full then pruned else more, !full)
            && UploadCounted(before, if full then pruned else more, size, now, !full)
  {
  }

  /** An answer request in figures. */
  ghost predicate AnswerCounted(before: Usage, after: Usage, now: int, ok: bool) {
    && after.bytes == before.bytes && after.documents == before.documents && after.uploads == before.uploads
    && (ok ==> && after.active == before.active + 1 <= 2
               && 1 <= |after.answers| <= 100 && after.answers[|after.answers| - 1] == now)
    && (!ok ==> after.active == before.active && (before.active >= 2 || |after.answers| >= 100))
  }

  lemma AnswerCounts(before: Usage, now: int, kept: seq<int>)
    requires kept == RecentOf(before.answers, DayBefore(now))
    ensures var full := before.active >= MAX_ACTIVE_ANSWERS || |kept| >= MAX_ANSWERS_PER_DAY;
            var pruned := before.(answers := kept);
            var more := pruned.(active := before.active + 1, answers := kept + [now]);
            && Step(before, Begin, now) == (if full then pruned else more, !full)
            && AnswerCounted(before, if full then pruned else more, now, !full)
  {
  }

  lemma SetTwice(owners: map<Owner, Usage>, owner: Owner, first: Usage, second: Usage)
    ensures owners[owner := first][owner := second] == owners[owner := second]
  {
  }

  class AdmissionController {
    var owners: map<Owner, Usage>

    constructor ()
      ensures owners == map[]
    {
      owners := map[];
    }

    function Of(owner: Owner): Usage
      reads this
    {
      if owner in owners then owners[owner] else NO_USAGE
    }

    method ReserveUpload(owner: Owner, size: int, now: int) returns (ok: bool)
      modifies this
      ensures ok == Step(old(Of(owner)), Upload(size), now).1
      ensures owners == old(owners)[owner := Step(old(Of(owner)), Upload(size), now).0]
      ensures UploadCounted(old(Of(owner)), Of(owner), size, now, ok)
    {
      var before := Of(owner);
      var kept := Recent(before.uploads, HourBefore(now));
      UploadCounts(before, size, now, kept);
      var usage := before.(uploads := kept);
      owners := owners[owner := usage];
      if usage.bytes + size > MAX_OWNER_STORAGE || usage.documents >= MAX_OWNER_DOCUMENTS
          || |usage.uploads| >= MAX_UPLOADS_PER_HOUR {
        return false;
      }
      var admitted := usage.(bytes := usage.bytes + size, documents := usage.documents + 1, uploads := kept + [now]);
      SetTwice(old(owners), owner, usage, admitted);
      owners := owners[owner := admitted];
      return true;
    }

    method ReleaseUpload(owner: Owner, size: int)
      modifies this
      ensures owners == old(owners)[owner := StepWith(old(Of(owner)), Release(size), 0, [], []).0]
      ensures Of(owner).bytes == old(Of(owner)).bytes - size && Of(owner).documents == old(Of(owner)).documents - 1
    {
      var usage := Of(owner);
      owners := owners[owner := usage.(bytes := usage.bytes - size, documents := usage.documents - 1)];
    }

    method BeginAnswer(owner: Owner, now: int) returns (ok: bool)
      modifies this
      ensures ok == Step(old(Of(owner)), Begin, now).1
      ensures owners == old(owners)[owner := Step(old(Of(owner)), Begin, now).0]
      ensures AnswerCounted(old(Of(owner)), Of(owner), now, ok)
    {
      var before := Of(owner);
      var kept := Recent(before.answers, DayBefore(now));
      AnswerCounts(before, now, kept);
      var usage := before.(answers := kept);
      owners := owners[owner := usage];
      if usage.active >= MAX_ACTIVE_ANSWERS || |usage.answers| >= MAX_ANSWERS_PER_DAY {
        return false;
      }
      var admitted := usage.(active := usage.active + 1, answers := kept + [now]);
      SetTwice(old(owners), owner, usage, admitted);
      owners := owners[owner := admitted];
      return true;
    }

    method EndAnswer(owner: Owner)
      modifies this
      ensures owners == old(owners)[owner := StepWith(old(Of(owner)), End, 0, [], []).0]
      ensures Of(owner).active == (if old(Of(owner)).active > 0 then old(Of(owner)).active - 1
                                   else old(Of(owner)).active)
    {
      var usage := Of(owner);
      if usage.active > 0 {
        usage := usage.(active := usage.active - 1);
      }
      owners := owners[owner := usage];
    }
  }

  // ----- Runs of one owner

  datatype Request = Request(op: Op, now: int)

  /** What is stored for an owner, and the times of all uploads and answers ever admitted. */
  datatype State = State(usage: Usage, uploads: seq<int>, answers: seq<int>)

  ghost predicate IsAdmitted(s: State, r: Request) {
    Step(s.usage, r.op, r.now).1
  }

  ghost function Next(s: State, r: Request): State {
    NextWith(s, r, RecentOf(s.usage.uploads, HourBefore(r.now)), RecentOf(s.usage.answers, DayBefore(r.now)))
  }

  ghost function After(run: seq<Request>, n: nat): State
    requires n <= |run|
  {
    if n == 0 then State(NO_USAGE, [], []) else Next(After(run, n - 1), run[n - 1])
  }

  /** The clock does not go back. */
  ghost predicate InTime(run: seq<Request>) {
    forall i, j | 0 <= i < j < |run| :: run[i].now <= run[j].now
  }

  /** A pruned log, the complete one, and the limit that was kept. */
  ghost predicate LogKept(kept: seq<int>, log: seq<int>, window: nat, limit: nat, clock: int) {
    Kept(kept, log, clock - window) && UpTo(log, clock) && Sparse(log, window, limit)
  }

  lemma LogLater(kept: seq<int>, log: seq<int>, window: nat, limit: nat, clock: int, now: int)
    requires LogKept(kept, log, window, limit, clock) && clock <= now
    ensures LogKept(kept, log, window, limit, now)
  {
  }

  lemma LogPruned(kept: seq<int>, log: seq<int>, window: nat, limit: nat, clock: int, now: int, since: int)
    requires LogKept(kept, log, window, limit, clock) && clock <= now && since == now - window
    ensures |RecentOf(kept, since)| == CountSince(log, since)
    ensures LogKept(RecentOf(kept, since), log, window, limit, now)
    ensures |RecentOf(kept, since)| < limit ==> LogKept(RecentOf(kept, since) + [now], log + [now], window, limit, now)
  {
    var rest := RecentOf(kept, since);
    PrunedCount(kept, log, clock - window, since);
    KeepOneMore(rest, log, since, now);
    if |rest| < limit { StaysSparse(rest, log, since, now, window, limit); }
  }

  ghost function NextWith(s: State, r: Request, uploads: seq<int>, answers: seq<int>): State {
    var (usage, ok) := StepWith(s.usage, r.op, r.now, uploads, answers);
    State(usage, if r.op.Upload? && ok then s.uploads + [r.now] else s.uploads,
          if r.op.Begin? && ok then s.answers + [r.now] else s.answers)
  }

  /** What a request does to a log: nothing, pruning, or pruning and one more. */
  lemma Cases(s: State, r: Request, uploads: seq<int>, answers: seq<int>, uploadsHold: (seq<int>, seq<int>) -> bool,
              answersHold: (seq<int>, seq<int>) -> bool)
    requires uploadsHold(s.usage.uploads, s.uploads) && uploadsHold(uploads, s.uploads)
    requires |uploads| < MAX_UPLOADS_PER_HOUR ==> uploadsHold(uploads + [r.now], s.uploads + [r.now])
    requires answersHold(s.usage.answers, s.answers) && answersHold(answers, s.answers)
    requires |answers| < MAX_ANSWERS_PER_DAY ==> answersHold(answers + [r.now], s.answers + [r.now])
    ensures var next := NextWith(s, r, uploads, answers);
            uploadsHold(next.usage.uploads, next.uploads) && answersHold(next.usage.answers, next.answers)
  {
  }

  /** Both pruned logs agree with the history. */
  ghost predicate Agrees(s: State, clock: int) {
    && LogKept(s.usage.uploads, s.uploads, HOUR, MAX_UPLOADS_PER_HOUR, clock)
    && LogKept(s.usage.answers, s.answers, DAY, MAX_ANSWERS_PER_DAY, clock)
  }

  /** An upload is admitted exactly when it fits the owner's quotas and fewer than the limit were admitted in the last
      hour, and an answer when few enough are active and fewer than the limit were admitted in the last day, of all that
      were ever admitted. */
  ghost predicate DecidedByHistory(s: State, r: Request) {
    && (r.op.Upload? ==>
          (IsAdmitted(s, r) <==>
            && s.usage.bytes + r.op.size <= MAX_OWNER_STORAGE && s.usage.documents < MAX_OWNER_DOCUMENTS
            && CountSince(s.uploads, HourBefore(r.now)) < MAX_UPLOADS_PER_HOUR))
    && (r.op.Begin? ==>
          (IsAdmitted(s, r) <==>
            && s.usage.active < MAX_ACTIVE_ANSWERS
            && CountSince(s.answers, DayBefore(r.now)) < MAX_ANSWERS_PER_DAY))
  }

  lemma StepAgrees(s: State, r: Request, clock: int)
    requires Agrees(s, clock) && clock <= r.now
    ensures Agrees(Next(s, r), r.now) && DecidedByHistory(s, r)
  {
    var now, hour, day := r.now, HourBefore(r.now), DayBefore(r.now);
    LogLater(s.usage.uploads, s.uploads, HOUR, MAX_UPLOADS_PER_HOUR, clock, now);
    LogPruned(s.usage.uploads, s.uploads, HOUR, MAX_UPLOADS_PER_HOUR, clock, now, hour);
    LogLater(s.usage.answers, s.answers, DAY, MAX_ANSWERS_PER_DAY, clock, now);
    LogPruned(s.usage.answers, s.answers, DAY, MAX_ANSWERS_PER_DAY, clock, now, day);
    Cases(s, r, RecentOf(s.usage.uploads, hour), RecentOf(s.usage.answers, day),
          (kept, log) => LogKept(kept, log, HOUR, MAX_UPLOADS_PER_HOUR, now),
          (kept, log) => LogKept(kept, log, DAY, MAX_ANSWERS_PER_DAY, now));
    CountsDecide(s, r, RecentOf(s.usage.uploads, hour), RecentOf(s.usage.answers, day));
  }

  lemma CountsDecide(s: State, r: Request, uploads: seq<int>, answers: seq<int>)
    requires uploads == RecentOf(s.usage.uploads, HourBefore(r.now))
    requires answers == RecentOf(s.usage.answers, DayBefore(r.now))
    requires |uploads| == CountSince(s.uploads, HourBefore(r.now))
             && |answers| == CountSince(s.answers, DayBefore(r.now))
    ensures DecidedByHistory(s, r)
  {
  }

  /** The time of request n - 1, or `first` if there is none. */
  ghost function ClockAfter(run: seq<Request>, n: nat, first: int): int
    requires n <= |run|
  {
    if n == 0 then first else run[n - 1].now
  }

  /** The pruned logs agree with the complete history at every point of every run. */
  lemma {:induction false} RunAgrees(run: seq<Request>, n: nat, first: int)
    requires InTime(run) && n <= |run| && (run != [] ==> first <= run[0].now)
    ensures Agrees(After(run, n), ClockAfter(run, n, first))
  {
    if n > 0 {
      RunAgrees(run, n - 1, first);
      StepAgrees(After(run, n - 1), run[n - 1], ClockAfter(run, n - 1, first));
    }
  }

  /** Pruning loses nothing: every decision of a run is the one that the complete history asks for. */
  lemma AdmittedByHistory(run: seq<Request>, n: nat)
    requires InTime(run) && n < |run|
    ensures DecidedByHistory(After(run, n), run[n])
  {
    RunAgrees(run, n, run[0].now);
    StepAgrees(After(run, n), run[n], ClockAfter(run, n, run[0].now));
  }

  /** No interval of one window, ends included, holds more than the limit. */
  lemma NoWindowOverLimit(run: seq<Request>, n: nat, i: nat, j: nat)
    requires InTime(run) && n <= |run|
    ensures var log := After(run, n).uploads;
            i <= j < |log| && log[j] <= log[i] + HOUR ==> j - i + 1 <= MAX_UPLOADS_PER_HOUR
    ensures var log := After(run, n).answers;
            i <= j < |log| && log[j] <= log[i] + DAY ==> j - i + 1 <= MAX_ANSWERS_PER_DAY
  {
    RunAgrees(run, n, if run == [] then 0 else run[0].now);
    Spread(After(run, n).uploads, HOUR, MAX_UPLOADS_PER_HOUR, i, j);
    Spread(After(run, n).answers, DAY, MAX_ANSWERS_PER_DAY, i, j);
  }

  lemma Spread(log: seq<int>, window: nat, limit: nat, i: nat, j: nat)
    requires Ascending(log) && Sparse(log, window, limit)
    ensures i + limit <= j < |log| ==> log[i] + window < log[j]
  {
    if i + limit <= j < |log| {
      var m := i + limit;
      assert log[i] + window < log[m] && log[m] <= log[j];
    }
  }
}
