/**
 * The counting part of `generateAnalytics` in assets/admin.js: totals,
 * per-key tallies built with `reduce` into a plain object, filtered counts
 * and the running sum of downloads, collected into one snapshot that is
 * then saved under `analytics`. Whether a timestamp falls in the current
 * month or the last week is a question about dates, so it is a parameter.
 */
module Analytics {
  import opened Js
  import opened LocalStore

  // ---------------------------------------------------------------------
  // Tallies: `xs.reduce((acc, x) => { acc[key] = (acc[key] || 0) + 1; return acc }, {})`
  // ---------------------------------------------------------------------

  /** A tally object: its keys in insertion order, each with its count. */
  type Tally = seq<(string, nat)>

  predicate DistinctKeys(t: Tally) {
    forall i, j :: 0 <= i < j < |t| ==> t[i].0 != t[j].0
  }

  /** `acc[key] || 0`: the count a tally holds for a key. */
  function CountFor(t: Tally, key: string): nat {
    if t == [] then 0 else (if t[0].0 == key then t[0].1 else 0) + CountFor(t[1..], key)
  }

  /** The sum of all counts in a tally. */
  function Total(t: Tally): nat {
    if t == [] then 0 else t[0].1 + Total(t[1..])
  }

  function KeyIndex(t: Tally, key: string): Option<nat> {
    FirstWhere(t, (e: (string, nat)) => e.0 == key)
  }

  /**
   * One reduce step: the key's count goes up by one, in place when the
   * key is there and as a new entry at the end when it is not; entries
   * for other keys stay where they are.
   */
  function Bump(t: Tally, key: string): (r: Tally)
    ensures |r| == |t| || r == t + [(key, 1)]
    ensures CountFor(r, key) == CountFor(t, key) + 1 && Total(r) == Total(t) + 1
    ensures forall j :: 0 <= j < |t| && t[j].0 != key ==> r[j] == t[j]
  {
    match KeyIndex(t, key)
    case Some(i) =>
      CountForUpdate(t, i, key);
      t[i := (key, t[i].1 + 1)]
    case None =>
      CountForAppend(t, key, key);
      t + [(key, 1)]
  }

  /** The whole reduce, continuing from tally `t` over the keys in order. */
  function TallyFrom(t: Tally, keys: seq<string>): Tally
    decreases |keys|
  {
    if keys == [] then t else TallyFrom(Bump(t, keys[0]), keys[1..])
  }

  /** The tally of a sequence of keys, starting from `{}`. */
  function TallyOf(keys: seq<string>): Tally {
    TallyFrom([], keys)
  }

  lemma {:induction false} CountForUpdate(t: Tally, i: nat, key: string)
    requires i < |t|
    ensures CountFor(t[i := (t[i].0, t[i].1 + 1)], key) == CountFor(t, key) + (if t[i].0 == key then 1 else 0)
    ensures Total(t[i := (t[i].0, t[i].1 + 1)]) == Total(t) + 1
  {
    var u := t[i := (t[i].0, t[i].1 + 1)];
    if i > 0 {
      assert u[1..] == t[1..][i - 1 := (t[i].0, t[i].1 + 1)];
      CountForUpdate(t[1..], i - 1, key);
    } else {
      assert u[1..] == t[1..];
    }
  }

  lemma {:induction false} CountForAppend(t: Tally, k: string, key: string)
    ensures CountFor(t + [(k, 1)], key) == CountFor(t, key) + (if k == key then 1 else 0)
    ensures Total(t + [(k, 1)]) == Total(t) + 1
  {
    if t != [] {
      assert (t + [(k, 1)])[1..] == t[1..] + [(k, 1)];
      CountForAppend(t[1..], k, key);
    }
  }

  /** A reduce step counts exactly one more of its key, and keeps keys distinct. */
  lemma BumpCounts(t: Tally, k: string, key: string)
    requires DistinctKeys(t)
    ensures CountFor(Bump(t, k), key) == CountFor(t, key) + (if k == key then 1 else 0)
    ensures Total(Bump(t, k)) == Total(t) + 1
    ensures DistinctKeys(Bump(t, k))
  {
    match KeyIndex(t, k)
    case Some(i) => CountForUpdate(t, i, key);
    case None => CountForAppend(t, k, key);
  }

  /**
   * The reduce counts every key as often as it occurs, so the counts add
   * up to the number of items, and each key appears once.
   */
  lemma {:induction false} TallyFromCounts(t: Tally, keys: seq<string>, key: string)
    requires DistinctKeys(t)
    ensures CountFor(TallyFrom(t, keys), key) == CountFor(t, key) + multiset(keys)[key]
    ensures Total(TallyFrom(t, keys)) == Total(t) + |keys|
    ensures DistinctKeys(TallyFrom(t, keys))
    decreases |keys|
  {
    if keys != [] {
      var k, rest := keys[0], keys[1..];
      BumpCounts(t, k, key);
      TallyFromCounts(Bump(t, k), rest, key);
      assert TallyFrom(t, keys) == TallyFrom(Bump(t, k), rest);
      assert multiset(keys)[key] == multiset(rest)[key] + (if k == key then 1 else 0) by {
        assert keys == [k] + rest;
      }
    }
  }

  /** A tally of items: one count per distinct key, as many as the key occurs, totalling the number of items. */
  lemma TallyOfCounts(keys: seq<string>)
    ensures DistinctKeys(TallyOf(keys))
    ensures Total(TallyOf(keys)) == |keys|
    ensures forall key :: CountFor(TallyOf(keys), key) == multiset(keys)[key]
  {
    forall key ensures CountFor(TallyOf(keys), key) == multiset(keys)[key] {
      TallyFromCounts([], keys, key);
    }
    TallyFromCounts([], keys, "");
  }

  /** `acc[x.field]`: the property key is `String(x.field)`, so a missing field counts under "undefined". */
  function KeysOf(xs: seq<Record>, field: string): (keys: seq<string>)
    ensures |keys| == |xs| && forall i :: 0 <= i < |xs| ==> keys[i] == ToJsString(Get(xs[i], field))
  {
    seq(|xs|, i requires 0 <= i < |xs| => ToJsString(Get(xs[i], field)))
  }

  // ---------------------------------------------------------------------
  // Downloads: `archives.reduce((sum, a) => sum + (a.downloads || 0), 0)`
  // ---------------------------------------------------------------------

  /** The number a value becomes in numeric `+`: `true` is 1, `null` and `false` are 0. */
  function NumberOf(v: Json): int
    requires v.Num? || v.Bool? || v.Null?
  {
    match v
    case Num(n) => n
    case Bool(b) => if b then 1 else 0
    case Null => 0
  }

  /**
   * JavaScript's `sum + x` for the running sum, which is always a number or
   * a string: numbers add; once either side is a string, an array or an
   * object, both are rendered and concatenated.
   */
  function Plus(sum: Json, x: Json): (r: Json)
    requires sum.Num? || sum.Str?
    ensures r.Num? || r.Str?
    ensures r.Num? <==> sum.Num? && (x.Num? || x.Bool? || x.Null?)
  {
    if sum.Num? && (x.Num? || x.Bool? || x.Null?) then Num(sum.n + NumberOf(x))
    else Str(Render(sum) + Render(x))
  }

  /** `a.downloads || 0`. */
  function DownloadsOf(a: Record): Json {
    if Truthy(Get(a, "downloads")) then Get(a, "downloads").value else Num(0)
  }

  /** The reduce over the archives, continuing from `sum`. */
  function DownloadsFrom(sum: Json, archives: seq<Record>): (r: Json)
    requires sum.Num? || sum.Str?
    ensures r.Num? || r.Str?
    decreases |archives|
  {
    if archives == [] then sum else DownloadsFrom(Plus(sum, DownloadsOf(archives[0])), archives[1..])
  }

  /** The archive's downloads count as a number: missing, falsy, a number or `true`. */
  predicate CountsAsNumber(a: Record) {
    var d := DownloadsOf(a);
    d.Num? || d.Bool?
  }

  /** The reference sum: each archive's downloads, a missing value counting as 0. */
  function SumDownloads(archives: seq<Record>): int
    requires forall i :: 0 <= i < |archives| ==> CountsAsNumber(archives[i])
  {
    if archives == [] then 0
    else
      assert CountsAsNumber(archives[0]);
      NumberOf(DownloadsOf(archives[0])) + SumDownloads(archives[1..])
  }

  /** When every archive's downloads is numeric, the reduce yields their plain sum. */
  lemma {:induction false} DownloadsAreSummed(n: int, archives: seq<Record>)
    requires forall i :: 0 <= i < |archives| ==> CountsAsNumber(archives[i])
    ensures DownloadsFrom(Num(n), archives) == Num(n + SumDownloads(archives))
    decreases |archives|
  {
    if archives != [] {
      DownloadsAreSummed(n + NumberOf(DownloadsOf(archives[0])), archives[1..]);
    }
  }

  lemma DownloadsSummedWhenNumeric(archives: seq<Record>)
    ensures (forall i :: 0 <= i < |archives| ==> CountsAsNumber(archives[i])) ==>
              DownloadsFrom(Num(0), archives) == Num(SumDownloads(archives))
  {
    if forall i :: 0 <= i < |archives| ==> CountsAsNumber(archives[i]) {
      DownloadsAreSummed(0, archives);
    }
  }

  /** Once the running sum has become text it stays text: the result is no longer a count. */
  lemma {:induction false} TextSumStaysText(s: string, archives: seq<Record>)
    ensures DownloadsFrom(Str(s), archives).Str?
    ensures |DownloadsFrom(Str(s), archives).s| >= |s|
    decreases |archives|
  {
    if archives != [] {
      TextSumStaysText(s + Render(DownloadsOf(archives[0])), archives[1..]);
    }
  }

  // ---------------------------------------------------------------------
  // The snapshot
  // ---------------------------------------------------------------------

  datatype UserStats = UserStats(total: nat, byRole: Tally, newThisMonth: nat)
  datatype MonasteryStats = MonasteryStats(total: nat, withVirtualTours: nat, withArchives: nat)
  datatype ArchiveStats = ArchiveStats(total: nat, byType: Tally, totalDownloads: Json)
  datatype ActivityStats = ActivityStats(totalActivities: nat, thisWeek: nat)
  datatype Snapshot = Snapshot(
    userStats: UserStats,
    monasteryStats: MonasteryStats,
    archiveStats: ArchiveStats,
    activityStats: ActivityStats,
    generatedAt: string)

  /** `xs.filter(x => x.field).length`. */
  function CountTruthy(xs: seq<Record>, field: string): (n: nat)
    ensures n <= |xs|
  {
    |Filter(xs, (x: Record) => Truthy(Get(x, field)))|
  }

  /** `xs.filter(x => when(x.field)).length`, for a date test on `field`. */
  function CountWhen(xs: seq<Record>, field: string, when: Option<Json> -> bool): (n: nat)
    ensures n <= |xs|
  {
    |Filter(xs, (x: Record) => when(Get(x, field)))|
  }

  /**
   * The snapshot `generateAnalytics` computes from the four collections.
   * `inThisMonth` says whether a `createdAt` value falls in the current
   * month, `inLastWeek` whether a `timestamp` is less than a week old.
   */
  function Compute(users: seq<Record>, monasteries: seq<Record>, archives: seq<Record>,
                   activities: seq<Record>, inThisMonth: Option<Json> -> bool,
                   inLastWeek: Option<Json> -> bool, clock: Clock): (a: Snapshot)
    ensures a.userStats.total == |users| == Total(a.userStats.byRole)
    ensures DistinctKeys(a.userStats.byRole) && DistinctKeys(a.archiveStats.byType)
    ensures a.userStats.newThisMonth <= a.userStats.total
    ensures forall role :: CountFor(a.userStats.byRole, role) == multiset(KeysOf(users, "role"))[role]
    ensures a.monasteryStats.total == |monasteries|
    ensures a.monasteryStats.withVirtualTours <= a.monasteryStats.total
    ensures a.monasteryStats.withArchives <= a.monasteryStats.total
    ensures a.archiveStats.total == |archives| == Total(a.archiveStats.byType)
    ensures forall kind :: CountFor(a.archiveStats.byType, kind) == multiset(KeysOf(archives, "type"))[kind]
    ensures (forall i :: 0 <= i < |archives| ==> CountsAsNumber(archives[i])) ==>
              a.archiveStats.totalDownloads == Num(SumDownloads(archives))
    ensures a.activityStats.totalActivities == |activities|
    ensures a.activityStats.thisWeek <= a.activityStats.totalActivities
  {
    var roles, kinds := KeysOf(users, "role"), KeysOf(archives, "type");
    TallyOfCounts(roles);
    TallyOfCounts(kinds);
    DownloadsSummedWhenNumeric(archives);
    Snapshot(
      UserStats(|users|, TallyOf(roles), CountWhen(users, "createdAt", inThisMonth)),
      MonasteryStats(|monasteries|, CountTruthy(monasteries, "hasVirtualTour"),
                     CountTruthy(monasteries, "hasArchives")),
      ArchiveStats(|archives|, TallyOf(kinds), DownloadsFrom(Num(0), archives)),
      ActivityStats(|activities|, CountWhen(activities, "timestamp", inLastWeek)),
      clock.iso)
  }

  /** Empty collections give an all-zero snapshot with empty tallies. */
  lemma EmptyStoreGivesZeros(inThisMonth: Option<Json> -> bool, inLastWeek: Option<Json> -> bool, clock: Clock)
    ensures var a := Compute([], [], [], [], inThisMonth, inLastWeek, clock);
            && a.userStats == UserStats(0, [], 0)
            && a.monasteryStats == MonasteryStats(0, 0, 0)
            && a.archiveStats == ArchiveStats(0, [], Num(0))
            && a.activityStats == ActivityStats(0, 0)
  {
  }

  /** A tally as the object it is saved as. */
  function TallyObject(t: Tally): (o: map<string, Json>)
    ensures DistinctKeys(t) ==> forall i :: 0 <= i < |t| ==> t[i].0 in o && o[t[i].0] == Num(t[i].1)
    ensures |o.Keys| <= |t|
  {
    if t == [] then map[] else TallyObject(t[1..])[t[0].0 := Num(t[0].1)]
  }

  /** The snapshot as the record saved under `analytics`. */
  function Encode(a: Snapshot): Record {
    map["userStats" := Obj(map["total" := Num(a.userStats.total),
                                "byRole" := Obj(TallyObject(a.userStats.byRole)),
                                "newThisMonth" := Num(a.userStats.newThisMonth)]),
        "monasteryStats" := Obj(map["total" := Num(a.monasteryStats.total),
                                     "withVirtualTours" := Num(a.monasteryStats.withVirtualTours),
                                     "withArchives" := Num(a.monasteryStats.withArchives)]),
        "archiveStats" := Obj(map["total" := Num(a.archiveStats.total),
                                   "byType" := Obj(TallyObject(a.archiveStats.byType)),
                                   "totalDownloads" := a.archiveStats.totalDownloads]),
        "activityStats" := Obj(map["totalActivities" := Num(a.activityStats.totalActivities),
                                    "thisWeek" := Num(a.activityStats.thisWeek)]),
        "generatedAt" := Str(a.generatedAt)]
  }

  /** `generateAnalytics()`: computes the snapshot from the store, saves it under `analytics`, returns it. */
  method GenerateAnalytics(s: Store, inThisMonth: Option<Json> -> bool, inLastWeek: Option<Json> -> bool,
                           clock: Clock) returns (a: Snapshot)
    modifies s
    ensures a == Compute(old(s.users), old(s.monasteries), old(s.archives), old(s.activities),
                         inThisMonth, inLastWeek, clock)
    ensures s.View() == old(s.View()).(analytics := Encode(a))
  {
    a := Compute(s.users, s.monasteries, s.archives, s.activities, inThisMonth, inLastWeek, clock);
    s.analytics := Encode(a);
  }
}
